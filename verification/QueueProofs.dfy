/** What holds over every run of a virtqueue: which heads are processed, what
    the used ring says, and when the interrupt is up. */
module QueueProofs {
  import Bits
  import opened Common
  import opened Bytes
  import opened Extents
  import opened Buffers
  import opened GuestMap
  import opened Scsi
  import opened VirtQueue

  // ---- Runs --------------------------------------------------------------------

  /** What can happen to the device, whatever the guest is. `published` is
      everything a driver that follows the protocol has put into the available
      ring so far. `Reset` leaves the maximum as the queue's length. `Elsewhere`
      is anything else: registers are programmed, memory is mapped or written,
      other queues post completions, disks change. */
  datatype Event =
    | NotifyQueue(published: seq<nat>)
    | ReadIsr
    | Reset(maxLen: nat)
    | Elsewhere(env: Env, mem: seq<byte>, units: map<nat, UnitState>, posted: bool)

  /** Events keep the size of host memory and the set of units. */
  ghost predicate Sane(e: Event, size: nat, luns: set<nat>) {
    e.Elsewhere? ==>
      && |e.mem| == size && SlotsInRam(e.env.slots, size)
      && e.units.Keys == luns && e.env.units.Keys == luns
  }

  ghost predicate AllSane(es: seq<Event>, size: nat, luns: set<nat>) {
    forall i :: 0 <= i < |es| ==> Sane(es[i], size, luns)
  }

  /** How the queue is set up after an event. */
  function NextEnv(env: Env, e: Event): Env {
    match e
    case NotifyQueue(_) => env
    case ReadIsr => env
    case Reset(maxLen) => env.(qlen := maxLen, desc := 0, driver := 0, device := 0)
    case Elsewhere(env', _, _, _) => env'
  }

  function Step(env: Env, st: St, e: Event): (r: Ended)
    requires WellFormed(env, st) && Sane(e, |st.mem|, st.units.Keys)
    ensures WellFormed(NextEnv(env, e), r.st) && |r.st.mem| == |st.mem| && r.st.units.Keys == st.units.Keys
  {
    match e
    case NotifyQueue(_) => Notify(env, st)
    case ReadIsr => Ok(st.(isr := 0, line := false))
    case Reset(_) => Ok(st.(avail := 0, used := 0, heads := [], done := [], dropped := [], unposted := []))
    case Elsewhere(_, mem, units, posted) =>
      var st' := st.(mem := mem, units := units);
      Ok(if posted then st'.(isr := Bits.Or(st.isr, 1), line := true) else st')
  }

  /** Events one after the other, up to one that raises or never returns. */
  function Run(env: Env, st: St, es: seq<Event>): (r: Ended)
    requires WellFormed(env, st) && AllSane(es, |st.mem|, st.units.Keys)
    ensures |r.st.mem| == |st.mem| && r.st.units.Keys == st.units.Keys
    decreases |es|
  {
    if es == [] then Ok(st)
    else
      var r := Step(env, st, es[0]);
      if r.Ok? then Run(NextEnv(env, es[0]), r.st, es[1..]) else r
  }

  // ---- History of one head, one drain -------------------------------------------

  /** What a handler leaves of the history and the interrupt, however it ends. */
  ghost predicate Follows(st: St, st': St) {
    && st.heads <= st'.heads && st.done <= st'.done && st.dropped <= st'.dropped && st.unposted <= st'.unposted
    && (if st'.done == st.done then st'.isr == st.isr && st'.line == st.line
        else st'.isr > 0 && (st.isr <= 1 ==> st'.isr == 1) && st'.line)
  }

  /** Heads that were handed over and neither completed nor dropped. */
  function Open(st: St): int { |st.heads| - |st.done| - |st.dropped| }

  lemma OrOne(v: nat)
    ensures Bits.Or(v, 1) > 0 && (v <= 1 ==> Bits.Or(v, 1) == 1)
  {
  }

  lemma HeadHistory(env: Env, st: St, head: nat)
    requires WellFormed(env, st)
    ensures var r := ProcessHead(env, st, head);
      && Follows(st, r.st) && r.st.heads == st.heads + [head] && r.st.avail == st.avail
      && (r.Ok? ==> r.st.unposted == st.unposted)
      && Open(r.st) == if r.Ok? then Open(st) else Open(st) + 1
  {
    hide Walk;
    hide RequestOf;
    hide Serve;
    hide PostedMem;
    OrOne(st.isr);
  }

  lemma FollowsTwice(a: St, b: St, c: St)
    requires Follows(a, b) && Follows(b, c)
    ensures Follows(a, c)
  {
  }

  /** The ring's entries from 16-bit index `cur` up to `idx`. */
  function RingHeads(ring: seq<byte>, qlen: nat, cur: Index, idx: Index): seq<nat>
    requires qlen > 0 && |ring| == RingLen(qlen)
    decreases Behind(cur, idx)
  {
    if cur == idx then [] else [RingEntry(ring, qlen, cur)] + RingHeads(ring, qlen, (cur + 1) % INDEX_SPAN, idx)
  }

  /** A drain hands over exactly the ring's entries, or a first part of them if
      it does not end normally. */
  lemma {:induction false} DrainHistory(env: Env, st: St, ring: seq<byte>, cur: Index, idx: Index)
    requires WellFormed(env, st) && |ring| == RingLen(env.qlen)
    ensures var r := Drain(env, st, ring, cur, idx);
      && Follows(st, r.st)
      && (r.Ok? ==> r.st.avail == idx && Open(r.st) == Open(st) && r.st.unposted == st.unposted)
      && (!r.Ok? ==> r.st.avail == st.avail && cur != idx)
      && (env.qlen > 0 ==>
            && (if r.Ok? then r.st.heads == st.heads + RingHeads(ring, env.qlen, cur, idx)
                else r.st.heads <= st.heads + RingHeads(ring, env.qlen, cur, idx))
            && (cur != idx ==> st.heads + [RingEntry(ring, env.qlen, cur)] <= r.st.heads)
            && (!r.Ok? ==> Open(r.st) == Open(st) + 1))
      && (env.qlen == 0 ==> r.st.heads == st.heads && Open(r.st) == Open(st))
    decreases Behind(cur, idx)
  {
    hide ProcessHead;
    if cur == idx {
      assert st.heads + [] == st.heads;
    } else if env.qlen > 0 {
      var head := RingEntry(ring, env.qlen, cur);
      var r := ProcessHead(env, st, head);
      HeadHistory(env, st, head);
      var cur' := (cur + 1) % INDEX_SPAN;
      BehindNext(cur, idx);
      ConcatAssoc(st.heads, [head], RingHeads(ring, env.qlen, cur', idx));
      if r.Ok? {
        DrainHistory(env, r.st, ring, cur', idx);
        FollowsTwice(st, r.st, Drain(env, r.st, ring, cur', idx).st);
      }
    }
  }

  lemma NotYetThere(m: nat, n: nat)
    requires m < n < m + INDEX_SPAN
    ensures m % INDEX_SPAN != n % INDEX_SPAN
  {
  }

  lemma Wrapped(n: nat)
    ensures (n % INDEX_SPAN + 1) % INDEX_SPAN == (n + 1) % INDEX_SPAN
  {
  }

  /** On an intact ring these are the heads published and not yet processed, in
      order, once each; the 16-bit indices may wrap on the way. */
  lemma {:induction false} RingHeadsArePublished(ring: seq<byte>, qlen: nat, published: seq<nat>, from: nat)
    requires 0 < qlen < INDEX_SPAN && |ring| == RingLen(qlen)
    requires from <= |published| <= from + qlen
    requires forall n :: from <= n < |published| ==> RingEntry(ring, qlen, n % INDEX_SPAN) == published[n]
    ensures RingHeads(ring, qlen, from % INDEX_SPAN, |published| % INDEX_SPAN) == published[from..]
    decreases |published| - from
  {
    hide RingEntry;
    if from < |published| {
      Wrapped(from);
      NotYetThere(from, |published|);
      RingHeadsArePublished(ring, qlen, published, from + 1);
      assert published[from..] == [published[from]] + published[from + 1..];
    }
  }

  /** A notification on an intact ring ends normally exactly when it has handed
      over what was published and moved the counter there; otherwise it has
      handed over a first part, and the counter is where it was. */
  lemma DrainIsPublished(env: Env, st: St, ring: seq<byte>, published: seq<nat>)
    requires WellFormed(env, st) && |ring| == RingLen(env.qlen)
    requires SnapshotHolds(ring, env.qlen, published, st.heads) && st.avail == |st.heads| % INDEX_SPAN
    ensures var r := Drain(env, st, ring, st.avail, RingIndex(ring, env.qlen));
      && (r.Ok? <==> r.st.heads == published && r.st.avail == |published| % INDEX_SPAN)
      && (!r.Ok? ==> r.st.heads <= published && r.st.avail == st.avail)
  {
    hide Drain;
    hide RingHeads;
    hide RingEntry;
    hide RingIndex;
    hide WellFormed;
    hide SnapshotHolds;
    hide Follows;
    SnapshotFacts(ring, env.qlen, published, st.heads);
    DrainHistory(env, st, ring, st.avail, RingIndex(ring, env.qlen));
    FrontAndRest(st.heads, published);
  }

  /** What a snapshot that holds says of the ring's indices and heads. */
  lemma SnapshotFacts(ring: seq<byte>, qlen: nat, published: seq<nat>, heads: seq<nat>)
    requires |ring| == RingLen(qlen) && SnapshotHolds(ring, qlen, published, heads)
    ensures qlen > 0 && heads <= published && RingIndex(ring, qlen) == |published| % INDEX_SPAN
    ensures RingHeads(ring, qlen, |heads| % INDEX_SPAN, |published| % INDEX_SPAN) == published[|heads|..]
  {
    hide RingHeads;
    hide RingEntry;
    hide RingIndex;
    RingHeadsArePublished(ring, qlen, published, |heads|);
  }

  lemma FrontAndRest(front: seq<nat>, all: seq<nat>)
    requires front <= all
    ensures front + all[|front|..] == all
  {
  }

  /** Of an available ring that is not mapped, all of it, a notification takes
      nothing; of one that cannot be copied it raises. A queue of length 0 has
      nothing to take either: its index has to be where the counter is. */
  lemma UnusableRing(env: Env, st: St)
    requires WellFormed(env, st)
    ensures !Mapped(env.slots, env.driver, 6 + 2 * env.qlen) ==> Notify(env, st) == Ok(st)
    ensures Mapped(env.slots, env.driver, 6 + 2 * env.qlen) && !Copyable(env.slots, env.driver, 6 + 2 * env.qlen) ==>
      Notify(env, st) == Fails(st)
    ensures var ring := ReadBack(env.slots, st.mem, env.driver, 6);
      env.qlen == 0 && ring.Bytes? ==>
        Notify(env, st) == if FromLe(ring.bytes[2..4]) == st.avail then Ok(st) else Fails(st)
  {
    ResolveIffMapped(env.slots, env.driver, RingLen(env.qlen));
  }

  /** A reset forgets the queue, and leaves memory, disks, the ISR register and the
      line; `SinceReset` starts from there. */
  lemma ResetForgets(env: Env, st: St, maxLen: nat)
    requires WellFormed(env, st)
    ensures NextEnv(env, Reset(maxLen)) == env.(qlen := maxLen, desc := 0, driver := 0, device := 0)
    ensures Step(env, st, Reset(maxLen))
         == Ok(St(st.mem, st.units, 0, 0, st.isr, st.line, [], [], [], []))
  {
  }

  // ---- Every guest ------------------------------------------------------------------

  /** One notification, whatever is in the available ring. */
  lemma NotifyHistory(env: Env, st: St)
    requires WellFormed(env, st)
    ensures var r := Notify(env, st);
      && Follows(st, r.st)
      && (r.Ok? ==> Open(r.st) == Open(st) && r.st.unposted == st.unposted)
      && (!r.Ok? ==> r.st.avail == st.avail && Open(st) <= Open(r.st) <= Open(st) + 1)
  {
    hide Drain;
    hide ReadBack;
    hide RingIndex;
    var r := ReadBack(env.slots, st.mem, env.driver, RingLen(env.qlen));
    if r.Bytes? { DrainHistory(env, st, r.bytes, st.avail, RingIndex(r.bytes, env.qlen)); }
  }

  /** Whatever the guest does, every head handed over is completed or dropped;
      only the one at which a run ends by an exception, or never ends, is left
      open. */
  lemma {:induction false} RunHistory(env: Env, st: St, es: seq<Event>)
    requires WellFormed(env, st) && AllSane(es, |st.mem|, st.units.Keys) && Open(st) == 0
    ensures var r := Run(env, st, es);
      if r.Ok? then Open(r.st) == 0 else 0 <= Open(r.st) <= 1
    decreases |es|
  {
    hide Notify;
    if es != [] {
      assert Sane(es[0], |st.mem|, st.units.Keys);
      var r := Step(env, st, es[0]);
      NotifyHistory(env, st);
      if r.Ok? { RunHistory(NextEnv(env, es[0]), r.st, es[1..]); }
    }
  }

  /** Whether a completion was posted, here or elsewhere, since the last read of
      the ISR register; a reset does not count as one. */
  function Pending(env: Env, st: St, es: seq<Event>, before: bool): bool
    requires WellFormed(env, st) && AllSane(es, |st.mem|, st.units.Keys)
    decreases |es|
  {
    if es == [] then before
    else
      var r := Step(env, st, es[0]);
      var now := match es[0]
        case NotifyQueue(_) => before || |r.st.done| > |st.done|
        case ReadIsr => false
        case Reset(_) => before
        case Elsewhere(_, _, _, posted) => before || posted;
      if r.Ok? then Pending(NextEnv(env, es[0]), r.st, es[1..], now) else now
  }

  /** Whatever the guest does and however a run ends, the ISR register is 1 if a
      completion was posted since the read before, and 0 otherwise; the line is
      up exactly when it is 1. */
  lemma {:induction false} IsrIffPosted(env: Env, st: St, es: seq<Event>)
    requires WellFormed(env, st) && AllSane(es, |st.mem|, st.units.Keys)
    requires st.isr <= 1 && st.line == (st.isr == 1)
    ensures var r := Run(env, st, es);
      r.st.isr == (if Pending(env, st, es, st.isr == 1) then 1 else 0) && r.st.line == (r.st.isr == 1)
    decreases |es|
  {
    hide Notify;
    if es != [] {
      assert Sane(es[0], |st.mem|, st.units.Keys);
      var r := Step(env, st, es[0]);
      OrOne(st.isr);
      NotifyHistory(env, st);
      if r.Ok? { IsrIffPosted(NextEnv(env, es[0]), r.st, es[1..]); }
    }
  }

  // ---- Guests that follow the protocol -----------------------------------------------

  /** What the driver and the rest of the device owe the queue: the available
      ring holds the published heads that are still to be processed, at most
      `qlen` of them, the queue stays set up as it is and nobody else writes the
      used ring. */
  ghost predicate Allowed(env: Env, st: St, e: Event)
    requires WellFormed(env, st) && Mapped(env.slots, env.device, UsedLen(env))
  {
    match e
    case NotifyQueue(published) =>
      var r := ReadBack(env.slots, st.mem, env.driver, RingLen(env.qlen));
      r.Bytes? && SnapshotHolds(r.bytes, env.qlen, published, st.heads)
    case ReadIsr => true
    case Reset(_) => false
    case Elsewhere(env', mem, units, _) =>
      && env' == env && |mem| == |st.mem|
      && FlatBytes(env.slots, mem, env.device, UsedLen(env)) == FlatBytes(env.slots, st.mem, env.device, UsedLen(env))
  }

  ghost predicate SnapshotHolds(ring: seq<byte>, qlen: nat, published: seq<nat>, heads: seq<nat>)
    requires |ring| == RingLen(qlen)
  {
    && heads <= published && |published| <= |heads| + qlen && 0 < qlen < INDEX_SPAN
    && RingIndex(ring, qlen) == |published| % INDEX_SPAN
    && forall n :: |heads| <= n < |published| ==> RingEntry(ring, qlen, n % INDEX_SPAN) == published[n]
  }

  ghost predicate RunAllowed(env: Env, st: St, es: seq<Event>)
    requires WellFormed(env, st) && Mapped(env.slots, env.device, UsedLen(env))
    requires AllSane(es, |st.mem|, st.units.Keys)
    decreases |es|
  {
    es == [] ||
    ( && Sane(es[0], |st.mem|, st.units.Keys) && Allowed(env, st, es[0])
      && (Step(env, st, es[0]).Ok? ==> RunAllowed(env, Step(env, st, es[0]).st, es[1..])))
  }

  /** The last published sequence an event list names. */
  function LastPublished(es: seq<Event>, before: seq<nat>): seq<nat>
    decreases |es|
  {
    if es == [] then before
    else LastPublished(es[1..], if es[0].NotifyQueue? then es[0].published else before)
  }

  /** Over every run, the heads processed are exactly those the driver had
      published at the last notification. */
  lemma {:induction false} RunProcessesPublished(env: Env, st: St, es: seq<Event>)
    requires WellFormed(env, st) && Mapped(env.slots, env.device, UsedLen(env))
    requires AllSane(es, |st.mem|, st.units.Keys) && RunAllowed(env, st, es)
    requires st.avail == |st.heads| % INDEX_SPAN
    ensures var r := Run(env, st, es);
      r.Ok? ==> r.st.heads == LastPublished(es, st.heads) && r.st.avail == |r.st.heads| % INDEX_SPAN
    decreases |es|
  {
    if es != [] {
      var r := Step(env, st, es[0]);
      if r.Ok? {
        if es[0].NotifyQueue? {
          var ring := ReadBack(env.slots, st.mem, env.driver, RingLen(env.qlen)).bytes;
          DrainIsPublished(env, st, ring, es[0].published);
        }
        RunProcessesPublished(env, r.st, es[1..]);
      }
    }
  }

  /** While the protocol is followed nothing is taken back, however a run ends. */
  lemma {:induction false} AllowedGrows(env: Env, st: St, es: seq<Event>)
    requires WellFormed(env, st) && Mapped(env.slots, env.device, UsedLen(env))
    requires AllSane(es, |st.mem|, st.units.Keys) && RunAllowed(env, st, es)
    ensures var r := Run(env, st, es);
      && st.heads <= r.st.heads && st.done <= r.st.done && st.dropped <= r.st.dropped && st.unposted <= r.st.unposted
      && (r.Ok? ==> r.st.unposted == st.unposted)
    decreases |es|
  {
    hide Notify;
    if es != [] {
      NotifyHistory(env, st);
      var r := Step(env, st, es[0]);
      if r.Ok? { AllowedGrows(env, r.st, es[1..]); }
    }
  }

  // ---- After an exception ---------------------------------------------------------

  /** Exactly-once holds only without an exception. A drain that raises has handed
      over at least its first head and has not moved the counter. So whatever the
      driver, the disks and the other queues do next: the first notification that
      finds that entry still in the ring hands the head over again, however it
      ends. */
  lemma FailedDrainRepeats(env: Env, st: St, ring: seq<byte>, env': Env, later: St, ring': seq<byte>)
    requires WellFormed(env, st) && env.qlen > 0 && |ring| == RingLen(env.qlen)
    requires ReadBack(env.slots, st.mem, env.driver, RingLen(env.qlen)) == Bytes(ring)
    requires Notify(env, st).Fails?
    requires WellFormed(env', later) && env'.qlen == env.qlen && |ring'| == RingLen(env.qlen)
    requires later.avail == Notify(env, st).st.avail && later.heads == Notify(env, st).st.heads
    requires ReadBack(env'.slots, later.mem, env'.driver, RingLen(env.qlen)) == Bytes(ring')
    requires RingIndex(ring', env.qlen) == RingIndex(ring, env.qlen)
    requires RingEntry(ring', env.qlen, st.avail) == RingEntry(ring, env.qlen, st.avail)
    ensures var first := RingEntry(ring, env.qlen, st.avail);
      && st.heads + [first] <= later.heads
      && later.heads + [first] <= Notify(env', later).st.heads
  {
    hide ReadBack;
    hide ProcessHead;
    hide RingHeads;
    hide WellFormed;
    var idx := RingIndex(ring, env.qlen);
    DrainHistory(env, st, ring, st.avail, idx);
    DrainHistory(env', later, ring', later.avail, idx);
  }

  // ---- The used ring --------------------------------------------------------------

  function UsedLen(env: Env): nat { 4 + 8 * env.qlen }

  /** Memory slots do not overlap, and the used ring is mapped. */
  ghost predicate RingMapped(env: Env) {
    Disjoint(env.slots) && Mapped(env.slots, env.device, UsedLen(env))
  }

  ghost predicate UsedRingPlaced(env: Env) {
    RingMapped(env) && env.qlen > 0 && INDEX_SPAN % env.qlen == 0
  }

  /** A chain's writable buffers stay clear of the used ring. */
  ghost predicate Avoids(env: Env, c: Completion) {
    forall i, a: nat :: 0 <= i < |c.addrs| && env.device <= a < env.device + UsedLen(env)
      ==> Translate(env.slots, a) != Some(c.addrs[i])
  }

  /** The `len` bytes at offset `off` of the used ring. */
  function UsedBytes(env: Env, mem: seq<byte>, off: nat, len: nat): seq<byte>
    requires SlotsInRam(env.slots, |mem|) && Mapped(env.slots, env.device, UsedLen(env)) && off + len <= UsedLen(env)
  {
    FlatBytes(env.slots, mem, env.device + off, len)
  }

  lemma SlotMapped(env: Env, n: nat)
    requires UsedRingPlaced(env)
    ensures Mapped(env.slots, env.device + 4 + 8 * (n % env.qlen), 8)
    ensures Mapped(env.slots, env.device + 4 + 8 * (n % env.qlen), 4)
    ensures Mapped(env.slots, env.device + 4 + 8 * (n % env.qlen) + 4, 4)
  {
    assert n % env.qlen < env.qlen;
  }

  /** Completion `n` is what a driver finds at offset 4 + 8 * (n mod qlen) of the
      ring: le32 head, le32 length. */
  ghost predicate EntryHeld(env: Env, mem: seq<byte>, done: seq<Completion>, n: nat)
    requires UsedRingPlaced(env) && SlotsInRam(env.slots, |mem|) && n < |done|
  {
    SlotMapped(env, n);
    var at := env.device + 4 + 8 * (n % env.qlen);
    && FromLe(FlatBytes(env.slots, mem, at, 4)) == done[n].head
    && FromLe(FlatBytes(env.slots, mem, at + 4, 4)) == done[n].written
  }

  /** The last `qlen` completions are in their slots. */
  ghost predicate EntriesHeld(env: Env, mem: seq<byte>, done: seq<Completion>)
    requires UsedRingPlaced(env) && SlotsInRam(env.slots, |mem|)
  {
    forall n :: 0 <= n < |done| && |done| <= n + env.qlen ==> EntryHeld(env, mem, done, n)
  }

  ghost predicate IndexHeld(env: Env, mem: seq<byte>, count: nat)
    requires RingMapped(env) && SlotsInRam(env.slots, |mem|)
  {
    FromLe(FlatBytes(env.slots, mem, env.device + 2, 2)) == count % 65536
  }

  /** The device's counter and the ring's index field are the number of
      completions modulo 65536, and the last `qlen` completions are in their
      slots. */
  ghost predicate UsedRingHolds(env: Env, st: St)
    requires UsedRingPlaced(env) && SlotsInRam(env.slots, |st.mem|)
  {
    && st.used == |st.done| % 65536
    && (|st.done| > 0 ==> IndexHeld(env, st.mem, |st.done|))
    && EntriesHeld(env, st.mem, st.done)
  }

  /** Unchanged ring bytes keep the ring's meaning. */
  lemma SameRing(env: Env, mem: seq<byte>, mem': seq<byte>, off: nat, len: nat)
    requires |mem| == |mem'| && SlotsInRam(env.slots, |mem|) && Mapped(env.slots, env.device, UsedLen(env))
    requires off + len <= UsedLen(env)
    requires FlatBytes(env.slots, mem, env.device, UsedLen(env)) == FlatBytes(env.slots, mem', env.device, UsedLen(env))
    ensures UsedBytes(env, mem, off, len) == UsedBytes(env, mem', off, len)
  {
    var r, r' := FlatBytes(env.slots, mem, env.device, UsedLen(env)),
        FlatBytes(env.slots, mem', env.device, UsedLen(env));
    var at, all := Flat(env.slots, env.device + off, len), Flat(env.slots, env.device, UsedLen(env));
    forall i | 0 <= i < len ensures at[i] == all[off + i] && mem[at[i]] == mem'[at[i]] {
      assert env.device + off + i == env.device + (off + i);
      assert r[off + i] == r'[off + i];
    }
  }

  lemma SlotFits(env: Env, n: nat)
    requires env.qlen > 0
    ensures 4 + 8 * (n % env.qlen) + 8 <= UsedLen(env)
  {
    assert n % env.qlen < env.qlen;
  }

  /** An entry of which the bytes stay is held as before. */
  lemma EntryStays(env: Env, mem: seq<byte>, mem': seq<byte>, done: seq<Completion>, done': seq<Completion>, n: nat)
    requires UsedRingPlaced(env) && SlotsInRam(env.slots, |mem|) && |mem'| == |mem|
    requires n < |done| && n < |done'| && done[n] == done'[n] && EntryHeld(env, mem, done, n)
    requires 4 + 8 * (n % env.qlen) + 8 <= UsedLen(env)
    requires var off := 4 + 8 * (n % env.qlen);
      && UsedBytes(env, mem', off, 4) == UsedBytes(env, mem, off, 4)
      && UsedBytes(env, mem', off + 4, 4) == UsedBytes(env, mem, off + 4, 4)
    ensures EntryHeld(env, mem', done', n)
  {
    hide FlatBytes;
    hide FromLe;
    hide RingMapped;
    hide SlotsInRam;
  }

  lemma RingHoldsAcross(env: Env, st: St, mem': seq<byte>)
    requires UsedRingPlaced(env) && SlotsInRam(env.slots, |st.mem|) && |mem'| == |st.mem|
    requires FlatBytes(env.slots, st.mem, env.device, UsedLen(env))
           == FlatBytes(env.slots, mem', env.device, UsedLen(env))
    requires UsedRingHolds(env, st)
    ensures UsedRingHolds(env, st.(mem := mem'))
  {
    hide EntryHeld;
    hide FlatBytes;
    hide Disjoint;
    hide SlotsInRam;
    SameRing(env, st.mem, mem', 2, 2);
    forall n | 0 <= n < |st.done| && |st.done| <= n + env.qlen ensures EntryHeld(env, mem', st.done, n) {
      var off := 4 + 8 * (n % env.qlen);
      SlotFits(env, n);
      SameRing(env, st.mem, mem', off, 4);
      SameRing(env, st.mem, mem', off + 4, 4);
      assert EntryHeld(env, st.mem, st.done, n);
      EntryStays(env, st.mem, mem', st.done, st.done, n);
    }
  }

  /** Serving a request leaves the ring alone if the chain avoids it. */
  lemma ServeKeepsRing(env: Env, mem: seq<byte>, at: seq<nat>, data: seq<byte>, c: Completion)
    requires RingMapped(env) && SlotsInRam(env.slots, |mem|) && Within(at, |mem|)
    requires c.addrs == at && Avoids(env, c)
    ensures FlatBytes(env.slots, WriteAll(mem, at, data), env.device, UsedLen(env))
         == FlatBytes(env.slots, mem, env.device, UsedLen(env))
  {
    var all := Flat(env.slots, env.device, UsedLen(env));
    forall i | 0 <= i < UsedLen(env) ensures WriteAll(mem, at, data)[all[i]] == mem[all[i]] {
      assert Translate(env.slots, env.device + i) == Some(all[i]);
      WriteAllFrame(mem, at, data, all[i]);
    }
  }

  /** A write to some other part of the ring keeps these bytes. */
  lemma OtherRingBytes(env: Env, mem: seq<byte>, off: nat, data: seq<byte>, off': nat, len: nat)
    requires RingMapped(env) && SlotsInRam(env.slots, |mem|)
    requires off + |data| <= UsedLen(env) && off' + len <= UsedLen(env)
    requires off + |data| <= off' || off' + len <= off
    ensures UsedBytes(env, Written(env.slots, mem, env.device + off, data), off', len) == UsedBytes(env, mem, off', len)
  {
    hide Written;
    OtherBytes(env.slots, mem, env.device + off, data, env.device + off', len);
  }

  lemma TheseRingBytes(env: Env, mem: seq<byte>, off: nat, data: seq<byte>)
    requires RingMapped(env) && SlotsInRam(env.slots, |mem|) && off + |data| <= UsedLen(env)
    ensures UsedBytes(env, Written(env.slots, mem, env.device + off, data), off, |data|) == data
  {
    hide Written;
    WrittenBytes(env.slots, mem, env.device + off, data, 0, |data|);
    assert data[0..|data|] == data;
  }

  /** A length that divides 65536 makes 16-bit and unbounded counting agree. */
  lemma WrapSlot(n: nat, qlen: nat)
    requires qlen > 0 && INDEX_SPAN % qlen == 0
    ensures (n % INDEX_SPAN) % qlen == n % qlen
  {
    var k, q, r := INDEX_SPAN / qlen, n / INDEX_SPAN, n % INDEX_SPAN;
    assert INDEX_SPAN == k * qlen;
    var q', r' := r / qlen, r % qlen;
    assert n == q * INDEX_SPAN + r && r == q' * qlen + r';
    MulAssoc(q, k, qlen);
    assert n == (q * k + q') * qlen + r';
    Bits.DivModUnique(n, qlen, q * k + q', r');
  }

  lemma MulAssoc(a: nat, b: nat, c: nat)
    ensures a * (b * c) == (a * b) * c
  {
  }

  /** Fewer than `qlen` apart means different slots. */
  lemma NearSlotsDiffer(m: nat, n: nat, qlen: nat)
    requires qlen > 0 && m < n < m + qlen
    ensures m % qlen != n % qlen
  {
    if m % qlen == n % qlen {
      var a, b := m / qlen, n / qlen;
      assert m == a * qlen + m % qlen && n == b * qlen + n % qlen;
      if a < b { Bits.MulGap(a, b, qlen); }
      if b < a { Bits.MulGap(b, a, qlen); }
    }
  }

  /** `qlen` consecutive entries go to different slots, wherever they start,
      exactly when the queue length divides 65536. */
  lemma RingSlotsDifferIff(qlen: nat)
    requires 0 < qlen < INDEX_SPAN
    ensures (forall m: nat, n: nat :: m < n < m + qlen ==> (m % INDEX_SPAN) % qlen != (n % INDEX_SPAN) % qlen)
       <==> INDEX_SPAN % qlen == 0
  {
    if INDEX_SPAN % qlen == 0 {
      forall m: nat, n: nat | m < n < m + qlen ensures (m % INDEX_SPAN) % qlen != (n % INDEX_SPAN) % qlen {
        WrapSlot(m, qlen);
        WrapSlot(n, qlen);
        NearSlotsDiffer(m, n, qlen);
      }
    } else {
      var r := INDEX_SPAN % qlen;
      var m: nat, n: nat := INDEX_SPAN - r, INDEX_SPAN;
      var q := INDEX_SPAN / qlen;
      assert INDEX_SPAN == q * qlen + r;
      Bits.DivModUnique(m, qlen, q, 0);
      assert m % INDEX_SPAN == m && n % INDEX_SPAN == 0;
      Bits.DivModUnique(0, qlen, 0, 0);
      assert m < n < m + qlen && (m % INDEX_SPAN) % qlen == (n % INDEX_SPAN) % qlen;
    }
  }

  lemma PostKeepsRing(env: Env, st: St, c: Completion)
    requires WellFormed(env, st) && UsedRingPlaced(env) && UsedRingHolds(env, st)
    ensures Post(env, st, c).Ok? ==> UsedRingHolds(env, Post(env, st, c).st)
  {
    hide Written;
    hide EntryHeld;
    if Post(env, st, c).Ok? {
      var used' := (st.used + 1) % INDEX_SPAN;
      var off, index := SlotOffset(env.qlen, st.used), ToLe(used', 2);
      Wrapped(|st.done|);
      WrapSlot(|st.done|, env.qlen);
      EntryReads(c);
      PostedIndex(env, Written(env.slots, st.mem, env.device + off, EntryOf(c)), |st.done| + 1, index);
      PostedEntries(env, st, c, off, EntryOf(c), index);
    }
  }

  /** le32 id, le32 len */
  lemma EntryReads(c: Completion)
    requires c.head < Limit(4) && c.written < Limit(4)
    ensures FromLe(EntryOf(c)[..4]) == c.head && FromLe(EntryOf(c)[4..]) == c.written
  {
    hide ToLe;
    hide FromLe;
    hide Limit;
    UnpackPacked(c.head, 4);
    UnpackPacked(c.written, 4);
    assert EntryOf(c)[..4] == ToLe(c.head, 4) && EntryOf(c)[4..] == ToLe(c.written, 4);
  }

  lemma PostedIndex(env: Env, mem: seq<byte>, count: nat, index: seq<byte>)
    requires RingMapped(env) && SlotsInRam(env.slots, |mem|) && index == ToLe(count % INDEX_SPAN, 2)
    ensures IndexHeld(env, Written(env.slots, mem, env.device + 2, index), count)
  {
    TheseRingBytes(env, mem, 2, index);
    assert Limit(2) == 256 * Limit(1) == INDEX_SPAN;
    UnpackPacked(count % INDEX_SPAN, 2);
  }

  lemma PostedEntries(env: Env, st: St, c: Completion, off: nat, entry: seq<byte>, index: seq<byte>)
    requires WellFormed(env, st) && UsedRingPlaced(env) && UsedRingHolds(env, st)
    requires off == 4 + 8 * (|st.done| % env.qlen) && |index| == 2
    requires |entry| == 8 && FromLe(entry[..4]) == c.head && FromLe(entry[4..]) == c.written
    ensures EntriesHeld(env, PostedMem(env, st.mem, off, entry, index), st.done + [c])
  {
    hide PostedMem;
    hide EntryHeld;
    hide UsedBytes;
    hide FromLe;
    hide RingMapped;
    hide SlotsInRam;
    var k, mem' := |st.done|, PostedMem(env, st.mem, off, entry, index);
    SlotFits(env, k);
    forall n | 0 <= n <= k && k + 1 <= n + env.qlen ensures EntryHeld(env, mem', st.done + [c], n) {
      SlotFits(env, n);
      if n < k {
        var o := 4 + 8 * (n % env.qlen);
        assert EntryHeld(env, st.mem, st.done, n);
        NearSlotsDiffer(n, k, env.qlen);
        PostedOther(env, st.mem, off, entry, index, o, 4);
        PostedOther(env, st.mem, off, entry, index, o + 4, 4);
        EntryStays(env, st.mem, mem', st.done, st.done + [c], n);
      } else {
        PostedThis(env, st.mem, off, entry, index);
        EntryIsHeld(env, mem', st.done + [c], k);
      }
    }
  }

  lemma EntryIsHeld(env: Env, mem: seq<byte>, done: seq<Completion>, n: nat)
    requires UsedRingPlaced(env) && SlotsInRam(env.slots, |mem|) && n < |done|
    requires 4 + 8 * (n % env.qlen) + 8 <= UsedLen(env)
    requires var off := 4 + 8 * (n % env.qlen);
      && FromLe(UsedBytes(env, mem, off, 4)) == done[n].head
      && FromLe(UsedBytes(env, mem, off + 4, 4)) == done[n].written
    ensures EntryHeld(env, mem, done, n)
  {
    hide FlatBytes;
    hide FromLe;
    hide RingMapped;
    hide SlotsInRam;
  }

  lemma PostedThis(env: Env, mem: seq<byte>, off: nat, entry: seq<byte>, index: seq<byte>)
    requires RingMapped(env) && SlotsInRam(env.slots, |mem|) && |index| == 2 && |entry| == 8
    requires 4 <= off && off + 8 <= UsedLen(env)
    ensures var mem' := PostedMem(env, mem, off, entry, index);
      UsedBytes(env, mem', off, 4) == entry[..4] && UsedBytes(env, mem', off + 4, 4) == entry[4..]
  {
    hide Written;
    var mem1 := Written(env.slots, mem, env.device + off, entry);
    WrittenBytes(env.slots, mem, env.device + off, entry, 0, 4);
    WrittenBytes(env.slots, mem, env.device + off, entry, 4, 4);
    OtherRingBytes(env, mem1, 2, index, off, 4);
    OtherRingBytes(env, mem1, 2, index, off + 4, 4);
  }

  lemma PostedOther(env: Env, mem: seq<byte>, off: nat, entry: seq<byte>, index: seq<byte>, o: nat, len: nat)
    requires RingMapped(env) && SlotsInRam(env.slots, |mem|) && |index| == 2 && |entry| == 8
    requires 4 <= off && off + 8 <= UsedLen(env) && 4 <= o && o + len <= UsedLen(env)
    requires off + 8 <= o || o + len <= off
    ensures UsedBytes(env, PostedMem(env, mem, off, entry, index), o, len) == UsedBytes(env, mem, o, len)
  {
    hide Written;
    OtherRingBytes(env, Written(env.slots, mem, env.device + off, entry), 2, index, o, len);
    OtherRingBytes(env, mem, off, entry, o, len);
  }

  ghost predicate AllAvoid(env: Env, done: seq<Completion>) {
    forall i :: 0 <= i < |done| ==> Avoids(env, done[i])
  }

  /** All replies written, reported or not, stayed clear of the used ring. */
  ghost predicate Spares(env: Env, st: St) { AllAvoid(env, st.done) && AllAvoid(env, st.unposted) }

  lemma HeadKeepsRing(env: Env, st: St, head: nat)
    requires WellFormed(env, st) && UsedRingPlaced(env) && UsedRingHolds(env, st)
    ensures var r := ProcessHead(env, st, head);
      Spares(env, r.st) ==> UsedRingHolds(env, r.st)
  {
    hide EntriesHeld;
    hide IndexHeld;
    hide FlatBytes;
    hide Walk;
    hide RequestOf;
    hide Serve;
    hide PostedMem;
    hide Limit;
    hide Avoids;
    hide RingMapped;
    var r := ProcessHead(env, st, head);
    var w := Walk(env, st.mem, head, {}, [], []);
    WalkInRam(env, st.mem, head, {}, [], []);
    if w.Chain? && RequestOf(env, st.mem, w.rd).Some? && Spares(env, r.st) {
      AddrsWithin(w.wr, |st.mem|);
      var req := RequestOf(env, st.mem, w.rd).value;
      var s := Serve(env, st.mem, st.units, req, w.rd, w.wr);
      var c := Completion(head, s.2, Addrs(w.wr));
      assert if r.Ok? then r.st.done[|st.done|] == c else r.st.unposted[|st.unposted|] == c;
      var st1 := st.(heads := st.heads + [head], mem := s.0, units := s.1);
      ServeLeavesRing(env, st, req, w.rd, w.wr, c);
      RingHoldsAcross(env, st, s.0);
      PostKeepsRing(env, st1, c);
    }
  }

  lemma ServeLeavesRing(env: Env, st: St, req: seq<byte>, rd: seq<MemoryExtent>, wr: seq<MemoryExtent>, c: Completion)
    requires WellFormed(env, st) && RingMapped(env)
    requires InRam(rd, |st.mem|) && InRam(wr, |st.mem|) && |req| == HEADER_LEN + env.cdbLen && env.cdbLen >= 6
    requires c.addrs == Addrs(wr) && Avoids(env, c)
    ensures FlatBytes(env.slots, Serve(env, st.mem, st.units, req, rd, wr).0, env.device, UsedLen(env))
         == FlatBytes(env.slots, st.mem, env.device, UsedLen(env))
  {
    AddrsWithin(wr, |st.mem|);
    var x := CommandOutcome(env, st.mem, st.units, req, rd, wr);
    ServeKeepsRing(env, st.mem, Addrs(wr), Response(x.1, env.senseLen), c);
  }

  lemma {:induction false} DrainKeepsRing(env: Env, st: St, ring: seq<byte>, cur: Index, idx: Index)
    requires WellFormed(env, st) && UsedRingPlaced(env) && UsedRingHolds(env, st)
    requires |ring| == RingLen(env.qlen)
    ensures var r := Drain(env, st, ring, cur, idx);
      Spares(env, r.st) ==> UsedRingHolds(env, r.st)
    decreases Behind(cur, idx)
  {
    hide ProcessHead;
    hide EntriesHeld;
    hide IndexHeld;
    hide AllAvoid;
    if cur != idx && Spares(env, Drain(env, st, ring, cur, idx).st) {
      var head := RingEntry(ring, env.qlen, cur);
      var r := ProcessHead(env, st, head);
      HeadKeepsRing(env, st, head);
      if r.Ok? {
        var cur' := (cur + 1) % INDEX_SPAN;
        BehindNext(cur, idx);
        DrainHistory(env, r.st, ring, cur', idx);
        SparedBefore(env, r.st, Drain(env, r.st, ring, cur', idx).st);
        DrainKeepsRing(env, r.st, ring, cur', idx);
      }
    }
  }

  lemma SparedBefore(env: Env, st: St, st': St)
    requires st.done <= st'.done && st.unposted <= st'.unposted && Spares(env, st')
    ensures Spares(env, st)
  {
    PrefixAvoids(env, st.done, st'.done);
    PrefixAvoids(env, st.unposted, st'.unposted);
  }

  lemma PrefixAvoids(env: Env, a: seq<Completion>, b: seq<Completion>)
    requires a <= b && AllAvoid(env, b)
    ensures AllAvoid(env, a)
  {
    forall i | 0 <= i < |a| ensures Avoids(env, a[i]) { assert a[i] == b[i]; }
  }

  /** Over every run in which the replies stay clear of the used ring, and however
      it ends, the ring accounts for every completion. */
  lemma {:induction false} RunKeepsUsedRing(env: Env, st: St, es: seq<Event>)
    requires WellFormed(env, st) && UsedRingPlaced(env) && UsedRingHolds(env, st)
    requires AllSane(es, |st.mem|, st.units.Keys) && RunAllowed(env, st, es)
    ensures var r := Run(env, st, es);
      Spares(env, r.st) ==> UsedRingHolds(env, r.st)
    decreases |es|
  {
    hide Notify;
    hide Spares;
    hide UsedRingHolds;
    if es != [] && Spares(env, Run(env, st, es).st) {
      var r := Step(env, st, es[0]);
      if r.Ok? {
        AllowedGrows(env, r.st, es[1..]);
        SparedBefore(env, r.st, Run(env, r.st, es[1..]).st);
      }
      StepKeepsRing(env, st, es[0]);
      if r.Ok? { RunKeepsUsedRing(env, r.st, es[1..]); }
    }
  }

  lemma StepKeepsRing(env: Env, st: St, e: Event)
    requires WellFormed(env, st) && UsedRingPlaced(env) && UsedRingHolds(env, st)
    requires Sane(e, |st.mem|, st.units.Keys) && Allowed(env, st, e)
    requires Spares(env, Step(env, st, e).st)
    ensures UsedRingHolds(env, Step(env, st, e).st)
  {
    hide Drain;
    hide EntriesHeld;
    hide IndexHeld;
    hide FlatBytes;
    hide ReadBack;
    hide AllAvoid;
    hide SnapshotHolds;
    match e {
      case NotifyQueue(_) =>
        var ring := ReadBack(env.slots, st.mem, env.driver, RingLen(env.qlen)).bytes;
        DrainKeepsRing(env, st, ring, st.avail, RingIndex(ring, env.qlen));
      case ReadIsr =>
      case Elsewhere(_, mem, units, _) => RingHoldsAcross(env, st, mem);
    }
  }

  /** Everything a driver can rely on since it reset and set up the queue, as long
      as its buffers stay clear of the used ring: the ring accounts for every
      completion; and unless a chain raises, the heads handed over are the ones it
      published, and each is completed or dropped. */
  lemma SinceReset(env: Env, st: St, es: seq<Event>)
    requires WellFormed(env, st) && UsedRingPlaced(env)
    requires AllSane(es, |st.mem|, st.units.Keys) && RunAllowed(env, st, es)
    requires st.avail == st.used == 0 && st.heads == [] && st.done == [] && st.dropped == [] && st.unposted == []
    ensures var r := Run(env, st, es);
      && (Spares(env, r.st) ==> UsedRingHolds(env, r.st))
      && (r.Ok? ==>
            && r.st.heads == LastPublished(es, []) && r.st.unposted == []
            && |r.st.heads| == |r.st.done| + |r.st.dropped|)
  {
    hide Run;
    RunProcessesPublished(env, st, es);
    RunHistory(env, st, es);
    AllowedGrows(env, st, es);
    RunKeepsUsedRing(env, st, es);
  }
}

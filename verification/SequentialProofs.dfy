/** What running the published requests one after the other means for a disk, and
    that whole runs of notifications come to the same. */
module SequentialProofs {
  import Bits
  import opened Common
  import opened Bytes
  import opened Extents
  import opened Buffers
  import opened GuestMap
  import opened Scsi
  import opened DiskArray
  import opened VirtQueue
  import opened QueueProofs
  import opened RequestProofs
  import opened DrainProofs

  // ---- The commands of a list of heads ---------------------------------------------

  /** The command of a request, with what its chain brings along. */
  function CommandOf(mem: seq<byte>, req: seq<byte>, rd: seq<MemoryExtent>, wr: seq<MemoryExtent>): Command
    requires |req| >= HEADER_LEN
  {
    var rest := AfterRead(rd, |req|);
    Command(Cdb(req), mem, if |Addrs(rest)| > 0 then Some(rest) else None, NonZero(|Addrs(wr)|))
  }

  /** The commands for unit `lun` among the heads' requests, in order. */
  function CommandsFor(env: Env, mem: seq<byte>, heads: seq<nat>, lun: nat): seq<Command>
    requires SlotsInRam(env.slots, |mem|)
    decreases |heads|
  {
    if heads == [] then []
    else OneFor(env, mem, heads[0], lun) + CommandsFor(env, mem, heads[1..], lun)
  }

  function OneFor(env: Env, mem: seq<byte>, head: nat, lun: nat): (cs: seq<Command>)
    requires SlotsInRam(env.slots, |mem|)
    ensures |cs| <= 1
  {
    WalkInRam(env, mem, head, {}, [], []);
    var w := Walk(env, mem, head, {}, [], []);
    if !w.Chain? || RequestOf(env, mem, w.rd).None? then []
    else
      var req := RequestOf(env, mem, w.rd).value;
      if UnitOf(req) == lun then [CommandOf(mem, req, w.rd, w.wr)] else []
  }

  ghost predicate AllValid(cs: seq<Command>) { forall i :: 0 <= i < |cs| ==> cs[i].Valid() }

  lemma OneIsValid(env: Env, mem: seq<byte>, head: nat, lun: nat)
    requires SlotsInRam(env.slots, |mem|)
    ensures AllValid(OneFor(env, mem, head, lun))
  {
    hide Walk;
    hide RequestOf;
    WalkInRam(env, mem, head, {}, [], []);
    WalkNonEmpty(env, mem, head, {}, [], []);
    var w := Walk(env, mem, head, {}, [], []);
    if w.Chain? && RequestOf(env, mem, w.rd).Some? {
      var req := RequestOf(env, mem, w.rd).value;
      AfterReadInRam(w.rd, |req|, |mem|);
      RestNonEmpty(w.rd, |req|);
    }
  }

  lemma {:induction false} CommandsAreValid(env: Env, mem: seq<byte>, heads: seq<nat>, lun: nat)
    requires SlotsInRam(env.slots, |mem|)
    ensures AllValid(CommandsFor(env, mem, heads, lun))
    decreases |heads|
  {
    hide OneFor;
    if heads != [] {
      OneIsValid(env, mem, heads[0], lun);
      CommandsAreValid(env, mem, heads[1..], lun);
    }
  }

  lemma {:induction false} RunUnitConcat(cfg: UnitConfig, u: UnitState, a: seq<Command>, b: seq<Command>)
    requires AllValid(a) && AllValid(b) && AllValid(a + b)
    ensures RunUnit(cfg, u, a + b) == RunUnit(cfg, RunUnit(cfg, u, a), b)
    decreases |a|
  {
    hide Perform;
    if a == [] {
      assert a + b == b;
    } else {
      assert (a + b)[0] == a[0] && (a + b)[1..] == a[1..] + b;
      assert a[0].Valid();
      RunUnitConcat(cfg, Perform(cfg, u, a[0]).0, a[1..], b);
    }
  }

  /** One head runs its unit's command and no other unit's. */
  lemma OneRuns(env: Env, mem: seq<byte>, units: map<nat, UnitState>, head: nat, lun: nat)
    requires SlotsInRam(env.slots, |mem|) && env.units.Keys == units.Keys && lun in units
    ensures AllValid(OneFor(env, mem, head, lun))
    ensures Sequential(env, mem, units, [head]).0[lun]
         == RunUnit(env.units[lun], units[lun], OneFor(env, mem, head, lun))
  {
    hide Walk;
    hide RequestOf;
    hide Execute;
    hide Response;
    OneIsValid(env, mem, head, lun);
    WalkInRam(env, mem, head, {}, [], []);
    var w := Walk(env, mem, head, {}, [], []);
    assert [head][1..] == [] && Sequential(env, mem, units, []) == (units, []);
    if w.Chain? && RequestOf(env, mem, w.rd).Some? {
      var req := RequestOf(env, mem, w.rd).value;
      CommandIsRun(env, mem, units, req, w.rd, w.wr, lun);
      hide CommandOutcome;
      var x := CommandOutcome(env, mem, units, req, w.rd, w.wr);
      assert Sequential(env, mem, x.0, []) == (x.0, []);
      if UnitOf(req) == lun { OneCommandUnit(env.units[lun], units[lun], CommandOf(mem, req, w.rd, w.wr)); }
    }
  }

  lemma OneCommandUnit(cfg: UnitConfig, u: UnitState, c: Command)
    requires AllValid([c])
    ensures [c][0].Valid() && RunUnit(cfg, u, [c]) == Perform(cfg, u, c).0
  {
    hide Perform;
    assert [c][0] == c && [c][1..] == [];
    assert RunUnit(cfg, Perform(cfg, u, c).0, []) == Perform(cfg, u, c).0;
  }

  /** The command of a request, at its unit and at others. */
  lemma CommandIsRun(env: Env, mem: seq<byte>, units: map<nat, UnitState>, req: seq<byte>, rd: seq<MemoryExtent>,
                     wr: seq<MemoryExtent>, lun: nat)
    requires InRam(rd, |mem|) && env.units.Keys == units.Keys && lun in units
    requires |req| == HEADER_LEN + env.cdbLen && env.cdbLen >= 6
    ensures InRam(AfterRead(rd, |req|), |mem|)
    ensures var x, c := CommandOutcome(env, mem, units, req, rd, wr), CommandOf(mem, req, rd, wr);
      if UnitOf(req) == lun then x.0[lun] == Perform(env.units[lun], units[lun], c).0
                                 && x.1 == Perform(env.units[lun], units[lun], c).1
      else x.0[lun] == units[lun]
  {
    hide Execute;
    hide FromBe;
    AfterReadInRam(rd, |req|, |mem|);
  }

  /** A unit's state after the heads is that of running their commands for it. */
  lemma {:induction false} SequentialIsRunUnit(env: Env, mem: seq<byte>, units: map<nat, UnitState>, heads: seq<nat>,
                                               lun: nat)
    requires SlotsInRam(env.slots, |mem|) && env.units.Keys == units.Keys && lun in units
    ensures AllValid(CommandsFor(env, mem, heads, lun))
    ensures Sequential(env, mem, units, heads).0[lun]
         == RunUnit(env.units[lun], units[lun], CommandsFor(env, mem, heads, lun))
    decreases |heads|
  {
    hide Sequential;
    hide OneFor;
    hide RunUnit;
    CommandsAreValid(env, mem, heads, lun);
    if heads == [] {
      NothingRuns(env, mem, units, lun);
    } else {
      var q := Sequential(env, mem, units, [heads[0]]);
      OneRuns(env, mem, units, heads[0], lun);
      OneHead(env, mem, units, heads[0], heads[1..]);
      assert heads == [heads[0]] + heads[1..];
      SequentialIsRunUnit(env, mem, q.0, heads[1..], lun);
      RunUnitConcat(env.units[lun], units[lun], OneFor(env, mem, heads[0], lun),
                    CommandsFor(env, mem, heads[1..], lun));
    }
  }

  lemma NothingRuns(env: Env, mem: seq<byte>, units: map<nat, UnitState>, lun: nat)
    requires SlotsInRam(env.slots, |mem|) && env.units.Keys == units.Keys && lun in units
    ensures Sequential(env, mem, units, []).0[lun] == RunUnit(env.units[lun], units[lun], [])
  {
  }

  // ---- One notification on a disk -------------------------------------------------------

  /** A notification, whose chains, data and rings stay out of each other's way,
      does to a disk what its commands for that disk do, in order, to a plain array
      of blocks. */
  lemma NotifyActsOnArray(env: Env, st: St, ring: seq<byte>, cur: Index, idx: Index, keep: set<nat>,
                          lun: nat, a: seq<Block>, tail: seq<byte>)
    requires WellFormed(env, st) && env.qlen > 0 && |ring| == RingLen(env.qlen)
    requires var heads := RingHeads(ring, env.qlen, cur, idx);
      && Separate(env, st.mem, heads, keep) && AllServed(env, st.mem, heads)
      && AllDataKept(env, st.mem, heads, keep) && BuffersApart(env, st.mem, heads)
    requires lun in env.units && env.units[lun].Valid() && env.units[lun].kind.Disk? && DiskHolds(env, st, lun, a, tail)
    requires var cs := CommandsFor(env, st.mem, RingHeads(ring, env.qlen, cur, idx), lun);
      AllWellPlaced(cs, |a|, env.units[lun].blockSize)
    ensures var cs := CommandsFor(env, st.mem, RingHeads(ring, env.qlen, cur, idx), lun);
      var r := Drain(env, st, ring, cur, idx);
      r.Ok? && DiskHolds(env, r.st, lun, RunArray(a, cs, env.units[lun].blockSize), tail)
  {
    hide Drain;
    hide RingHeads;
    hide Separate;
    hide AllServed;
    hide AllDataKept;
    hide BuffersApart;
    hide Sequential;
    hide CommandsFor;
    hide HoldsBlocks;
    hide RunArray;
    hide RunUnit;
    hide AllWellPlaced;
    hide ReplyHeld;
    var heads := RingHeads(ring, env.qlen, cur, idx);
    DrainIsSequential(env, st, ring, cur, idx, keep);
    SequentialIsRunUnit(env, st.mem, st.units, heads, lun);
    RunIsArray(env.units[lun], st.units[lun], a, tail, CommandsFor(env, st.mem, heads, lun));
  }

  /** The reply to a READ among the heads is what the array holds after the commands
      in front of it. */
  lemma ReadSeesArray(env: Env, mem: seq<byte>, units: map<nat, UnitState>, front: seq<nat>, head: nat,
                      a: seq<Block>, tail: seq<byte>, lun: nat, read: Command)
    requires SlotsInRam(env.slots, |mem|) && env.units.Keys == units.Keys && lun in units
    requires env.units[lun].Valid() && env.units[lun].kind.Disk?
    requires HoldsBlocks(units[lun].image, a, env.units[lun].blockSize, tail)
    requires AllWellPlaced(CommandsFor(env, mem, front, lun), |a|, env.units[lun].blockSize)
    requires OneFor(env, mem, head, lun) == [read] && |read.cdb| >= 10 && read.cdb[0] == 0x28 && read.inLen.Some?
    requires Lba(read.cdb) + Count(read.cdb) <= |a|
    ensures var now := RunArray(a, CommandsFor(env, mem, front, lun), env.units[lun].blockSize);
      var q := Sequential(env, mem, Sequential(env, mem, units, front).0, [head]);
      var data := Join(now[Lba(read.cdb)..Lba(read.cdb) + Count(read.cdb)]);
      q.1 == [ChainReply(head, WritableAt(env, mem, head), Response(Returns(Good(data)), env.senseLen))]
  {
    hide Walk;
    hide RequestOf;
    hide RunUnit;
    hide RunArray;
    hide HoldsBlocks;
    hide Response;
    hide CommandsFor;
    hide AllWellPlaced;
    hide Perform;
    hide Join;
    hide Lba;
    hide Count;
    var before := Sequential(env, mem, units, front).0;
    SequentialIsRunUnit(env, mem, units, front, lun);
    OneIsValid(env, mem, head, lun);
    assert [read][0].Valid();
    ReadAfterWrites(env.units[lun], units[lun], a, tail, CommandsFor(env, mem, front, lun), read);
    WalkInRam(env, mem, head, {}, [], []);
    var w := Walk(env, mem, head, {}, [], []);
    var req := RequestOf(env, mem, w.rd).value;
    CommandIsRun(env, mem, before, req, w.rd, w.wr, lun);
    hide CommandOutcome;
    assert [head][1..] == [];
    var x := CommandOutcome(env, mem, before, req, w.rd, w.wr);
    assert Sequential(env, mem, x.0, []) == (x.0, []);
  }

  // ---- Whole runs ---------------------------------------------------------------------------

  /** At each notification the chains, data and rings stay out of each other's way,
      and the device can handle every pending head. */
  ghost predicate Orderly(env: Env, st: St, e: Event)
    requires WellFormed(env, st)
  {
    e.NotifyQueue? ==>
      && |st.heads| <= |e.published|
      && exists keep :: Separate(env, st.mem, e.published[|st.heads|..], keep)
           && AllServed(env, st.mem, e.published[|st.heads|..])
           && AllDataKept(env, st.mem, e.published[|st.heads|..], keep)
  }

  ghost predicate RunOrderly(env: Env, st: St, es: seq<Event>)
    requires WellFormed(env, st) && AllSane(es, |st.mem|, st.units.Keys)
    decreases |es|
  {
    es == [] ||
    ( && Sane(es[0], |st.mem|, st.units.Keys) && Orderly(env, st, es[0])
      && (Step(env, st, es[0]).Ok? ==> RunOrderly(NextEnv(env, es[0]), Step(env, st, es[0]).st, es[1..])))
  }

  /** The disks and replies when, at each notification, the newly published requests
      run one after the other on the memory there is at that moment. Only memory is
      taken from the device; the disks are handed on from request to request, and
      otherwise change as the events say. */
  function Replay(env: Env, st: St, es: seq<Event>, units: map<nat, UnitState>)
    : (r: (map<nat, UnitState>, seq<ChainReply>))
    requires WellFormed(env, st) && AllSane(es, |st.mem|, st.units.Keys) && units.Keys == st.units.Keys
    decreases |es|
  {
    if es == [] then (units, [])
    else
      var e, next := es[0], Step(env, st, es[0]);
      var q := match e
        case NotifyQueue(published) =>
          Sequential(env, st.mem, units, if |st.heads| <= |published| then published[|st.heads|..] else [])
        case Elsewhere(_, _, changed, _) => (changed, [])
        case ReadIsr => (units, [])
        case Reset(_) => (units, []);
      if !next.Ok? then q
      else
        var rest := Replay(NextEnv(env, e), next.st, es[1..], q.0);
        (rest.0, q.1 + rest.1)
  }

  lemma OrderlyNotify(env: Env, st: St, published: seq<nat>)
    requires WellFormed(env, st) && Mapped(env.slots, env.device, UsedLen(env)) && st.avail == |st.heads| % INDEX_SPAN
    requires Allowed(env, st, NotifyQueue(published)) && Orderly(env, st, NotifyQueue(published))
    ensures var r, q := Notify(env, st), Sequential(env, st.mem, st.units, published[|st.heads|..]);
      && r.Ok? && r.st.units == q.0 && r.st.done == st.done + Posted(q.1)
      && r.st.heads == published && r.st.avail == |published| % INDEX_SPAN
  {
    hide ReadBack;
    hide Drain;
    hide RingHeads;
    hide ProcessAll;
    hide Separate;
    hide AllServed;
    hide AllDataKept;
    hide Sequential;
    var ring := ReadBack(env.slots, st.mem, env.driver, RingLen(env.qlen)).bytes;
    var idx, heads := RingIndex(ring, env.qlen), published[|st.heads|..];
    var keep :| Separate(env, st.mem, heads, keep) && AllServed(env, st.mem, heads)
      && AllDataKept(env, st.mem, heads, keep);
    RingHeadsArePublished(ring, env.qlen, published, |st.heads|);
    DrainIsProcessAll(env, st, ring, st.avail, idx);
    AllSequential(env, st, heads, keep);
    DrainIsPublished(env, st, ring, published);
  }

  /** Over a whole run, any number of notifications with driver and other queues
      in between, the disks and the completions are those of running all published
      requests in order. */
  lemma {:induction false} RunIsReplay(env: Env, st: St, es: seq<Event>)
    requires WellFormed(env, st) && Mapped(env.slots, env.device, UsedLen(env)) && st.avail == |st.heads| % INDEX_SPAN
    requires AllSane(es, |st.mem|, st.units.Keys) && RunAllowed(env, st, es) && RunOrderly(env, st, es)
    ensures var r, q := Run(env, st, es), Replay(env, st, es, st.units);
      r.Ok? && r.st.units == q.0 && r.st.done == st.done + Posted(q.1)
    decreases |es|
  {
    hide Notify;
    hide Orderly;
    hide Sequential;
    hide Posted;
    if es == [] {
      NoHeads(env, st);
    } else {
      var e, next := es[0], Step(env, st, es[0]);
      if e.NotifyQueue? {
        PublishedMore(env, st, e.published);
        OrderlyNotify(env, st, e.published);
      }
      RunIsReplay(env, next.st, es[1..]);
      var rest := Replay(env, next.st, es[1..], next.st.units);
      if e.NotifyQueue? {
        PostedConcat(st.done, Sequential(env, st.mem, st.units, e.published[|st.heads|..]).1, rest.1);
      } else {
        assert [] + rest.1 == rest.1;
      }
    }
  }

  lemma PublishedMore(env: Env, st: St, published: seq<nat>)
    requires WellFormed(env, st) && Mapped(env.slots, env.device, UsedLen(env))
    requires Allowed(env, st, NotifyQueue(published))
    ensures |st.heads| <= |published|
  {
  }
}

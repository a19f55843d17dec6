/** The device with all its queues: they share guest memory, the disks, the ISR
    register and the interrupt line. What each queue sees of a run of the device is
    a run of that queue, so what is proved of one queue holds of all of them
    together. */
module DeviceRuns {
  import Bits
  import opened Common
  import opened Bytes
  import opened GuestMap
  import opened Scsi
  import opened VirtQueue
  import opened QueueProofs
  import opened DrainProofs

  datatype DeviceEvent =
    | Notified(q: nat, published: seq<nat>)
    | IsrRead
    | DeviceReset(maxLens: seq<nat>)
    | Outside(envs: seq<Env>, mem: seq<byte>, units: map<nat, UnitState>)

  /** One set-up and one state for each queue, with the shared parts equal. */
  ghost predicate Together(envs: seq<Env>, sts: seq<St>) {
    && |envs| == |sts| > 0
    && sts[0].isr <= 1 && sts[0].line == (sts[0].isr == 1)
    && forall i :: 0 <= i < |sts| ==> WellFormed(envs[i], sts[i]) && Sharing(sts[i], sts[0])
  }

  ghost predicate Sharing(a: St, b: St) {
    a.mem == b.mem && a.units == b.units && a.isr == b.isr && a.line == b.line
  }

  ghost predicate SaneFor(e: DeviceEvent, envs: seq<Env>, sts: seq<St>)
    requires |sts| > 0
  {
    match e
    case Notified(q, _) => q < |sts|
    case IsrRead => true
    case DeviceReset(maxLens) => |maxLens| == |sts|
    case Outside(envs', mem, units) =>
      && |envs'| == |sts| && |mem| == |sts[0].mem| && units.Keys == sts[0].units.Keys
      && forall i :: 0 <= i < |envs'| ==> SlotsInRam(envs'[i].slots, |mem|) && envs'[i].units.Keys == units.Keys
  }

  function NextEnvs(envs: seq<Env>, e: DeviceEvent): (r: seq<Env>)
    requires e.DeviceReset? ==> |e.maxLens| == |envs|
    requires e.Outside? ==> |e.envs| == |envs|
    ensures |r| == |envs|
  {
    match e
    case Notified(_, _) => envs
    case IsrRead => envs
    case DeviceReset(maxLens) =>
      seq(|envs|, i requires 0 <= i < |envs| => NextEnv(envs[i], Reset(maxLens[i])))
    case Outside(envs', _, _) => envs'
  }

  /** After queue `q` has come to `st`. */
  function Spread(sts: seq<St>, q: nat, st: St): (r: seq<St>)
    ensures |r| == |sts|
  {
    seq(|sts|, i requires 0 <= i < |sts| =>
      if i == q then st else sts[i].(mem := st.mem, units := st.units, isr := st.isr, line := st.line))
  }

  /** The queues after an event, and whether it ended normally. */
  function DeviceStep(envs: seq<Env>, sts: seq<St>, e: DeviceEvent): (r: (seq<St>, bool))
    requires |envs| == |sts| > 0 && (e.Notified? ==> e.q < |sts| && WellFormed(envs[e.q], sts[e.q]))
    ensures |r.0| == |sts|
  {
    match e
    case Notified(q, _) =>
      var r := Notify(envs[q], sts[q]);
      (Spread(sts, q, r.st), r.Ok?)
    case IsrRead => (seq(|sts|, i requires 0 <= i < |sts| => sts[i].(isr := 0, line := false)), true)
    case DeviceReset(_) =>
      (seq(|sts|, i requires 0 <= i < |sts| =>
         sts[i].(avail := 0, used := 0, heads := [], done := [], dropped := [], unposted := [])), true)
    case Outside(_, mem, units) => (seq(|sts|, i requires 0 <= i < |sts| => sts[i].(mem := mem, units := units)), true)
  }

  /** What an event of the device is for queue `i`. */
  function Project(envs: seq<Env>, sts: seq<St>, e: DeviceEvent, i: nat): Event
    requires |envs| == |sts| && i < |sts|
    requires e.Notified? ==> e.q < |sts| && WellFormed(envs[e.q], sts[e.q])
    requires e.DeviceReset? ==> |e.maxLens| == |sts|
    requires e.Outside? ==> |e.envs| == |sts|
  {
    match e
    case Notified(q, published) =>
      if q == i then NotifyQueue(published)
      else
        var st := Notify(envs[q], sts[q]).st;
        Elsewhere(envs[i], st.mem, st.units, st.done != sts[q].done)
    case IsrRead => ReadIsr
    case DeviceReset(maxLens) => Reset(maxLens[i])
    case Outside(envs', mem, units) => Elsewhere(envs'[i], mem, units, false)
  }

  /** A notification on another queue is, for this one, something that happens
      elsewhere and may raise the interrupt. */
  lemma OtherQueueIsElsewhere(envs: seq<Env>, sts: seq<St>, q: nat, published: seq<nat>, i: nat)
    requires Together(envs, sts) && q < |sts| && i < |sts| && i != q
    ensures var st, e := Notify(envs[q], sts[q]).st, Project(envs, sts, Notified(q, published), i);
      && Sane(e, |sts[i].mem|, sts[i].units.Keys) && NextEnv(envs[i], e) == envs[i]
      && Step(envs[i], sts[i], e) == Ok(sts[i].(mem := st.mem, units := st.units, isr := st.isr, line := st.line))
      && st.isr <= 1 && st.line == (st.isr == 1)
  {
    hide Notify;
    assert Sharing(sts[q], sts[0]) && Sharing(sts[i], sts[0]) && WellFormed(envs[i], sts[i]);
    NotifyHistory(envs[q], sts[q]);
    OrOne(sts[i].isr);
  }

  /** Every queue's state after an event is what the event is for that queue. */
  lemma StepProjects(envs: seq<Env>, sts: seq<St>, e: DeviceEvent, i: nat)
    requires Together(envs, sts) && SaneFor(e, envs, sts) && i < |sts|
    ensures var p, next := Project(envs, sts, e, i), DeviceStep(envs, sts, e);
      && Sane(p, |sts[i].mem|, sts[i].units.Keys)
      && Step(envs[i], sts[i], p).st == next.0[i] && NextEnv(envs[i], p) == NextEnvs(envs, e)[i]
      && (next.1 ==> Step(envs[i], sts[i], p).Ok?)
      && (!next.1 ==> e.Notified? && NextEnvs(envs, e) == envs)
  {
    hide Notify;
    assert Sharing(sts[i], sts[0]) && WellFormed(envs[i], sts[i]);
    if e.Notified? {
      if e.q != i { OtherQueueIsElsewhere(envs, sts, e.q, e.published, i); }
    }
  }

  lemma StepKeepsTogether(envs: seq<Env>, sts: seq<St>, e: DeviceEvent)
    requires Together(envs, sts) && SaneFor(e, envs, sts)
    ensures Together(NextEnvs(envs, e), DeviceStep(envs, sts, e).0)
    ensures |DeviceStep(envs, sts, e).0[0].mem| == |sts[0].mem|
    ensures DeviceStep(envs, sts, e).0[0].units.Keys == sts[0].units.Keys
  {
    hide Notify;
    hide Step;
    var envs', sts' := NextEnvs(envs, e), DeviceStep(envs, sts, e).0;
    forall i | 0 <= i < |sts| ensures WellFormed(envs'[i], sts'[i]) {
      StepProjects(envs, sts, e, i);
    }
    if e.Notified? {
      assert Sharing(sts[e.q], sts[0]);
      NotifyHistory(envs[e.q], sts[e.q]);
      assert WellFormed(envs[e.q], sts'[e.q]);
    }
    forall i | 0 <= i < |sts| ensures Sharing(sts'[i], sts'[0]) { assert Sharing(sts[i], sts[0]); }
    assert WellFormed(envs[0], sts[0]) && WellFormed(envs'[0], sts'[0]);
  }

  // ---- Runs ------------------------------------------------------------------------

  ghost predicate AllSaneFor(envs: seq<Env>, sts: seq<St>, es: seq<DeviceEvent>)
    requires Together(envs, sts)
    decreases |es|
  {
    es == [] ||
    ( && SaneFor(es[0], envs, sts)
      && (StepKeepsTogether(envs, sts, es[0]);
          AllSaneFor(NextEnvs(envs, es[0]), DeviceStep(envs, sts, es[0]).0, es[1..])))
  }

  /** Events one after the other, up to one that does not end normally. */
  ghost function DeviceRun(envs: seq<Env>, sts: seq<St>, es: seq<DeviceEvent>): (r: (seq<St>, bool))
    requires Together(envs, sts) && AllSaneFor(envs, sts, es)
    ensures |r.0| == |sts|
    decreases |es|
  {
    if es == [] then (sts, true)
    else
      StepKeepsTogether(envs, sts, es[0]);
      var r := DeviceStep(envs, sts, es[0]);
      if r.1 then DeviceRun(NextEnvs(envs, es[0]), r.0, es[1..]) else r
  }

  /** What queue `i` sees of it. */
  ghost function Projected(envs: seq<Env>, sts: seq<St>, es: seq<DeviceEvent>, i: nat): seq<Event>
    requires Together(envs, sts) && AllSaneFor(envs, sts, es) && i < |sts|
    decreases |es|
  {
    if es == [] then []
    else
      StepKeepsTogether(envs, sts, es[0]);
      var r := DeviceStep(envs, sts, es[0]);
      [Project(envs, sts, es[0], i)]
        + if r.1 then Projected(NextEnvs(envs, es[0]), r.0, es[1..], i) else []
  }

  /** A run of the device is, for each of its queues, a run of that queue. */
  lemma {:induction false} RunProjects(envs: seq<Env>, sts: seq<St>, es: seq<DeviceEvent>, i: nat)
    requires Together(envs, sts) && AllSaneFor(envs, sts, es) && i < |sts| && WellFormed(envs[i], sts[i])
    ensures AllSane(Projected(envs, sts, es, i), |sts[i].mem|, sts[i].units.Keys)
    ensures var r, d := Run(envs[i], sts[i], Projected(envs, sts, es, i)), DeviceRun(envs, sts, es);
      r.st == d.0[i] && (d.1 ==> r.Ok?)
    decreases |es|
  {
    hide Step;
    hide DeviceStep;
    hide Project;
    hide Together;
    hide SaneFor;
    if es != [] {
      SaneFacts(envs, sts, es[0]);
      StepKeepsTogether(envs, sts, es[0]);
      StepProjects(envs, sts, es[0], i);
      var r, envs' := DeviceStep(envs, sts, es[0]), NextEnvs(envs, es[0]);
      var p := Project(envs, sts, es[0], i);
      if r.1 {
        PartOfTogether(envs', r.0, i);
        RunProjects(envs', r.0, es[1..], i);
        var rest := Projected(envs', r.0, es[1..], i);
        OneMore(envs[i], sts[i], p, rest);
      } else {
        assert [p] + [] == [p];
        OneMore(envs[i], sts[i], p, []);
      }
    }
  }

  lemma SaneFacts(envs: seq<Env>, sts: seq<St>, e: DeviceEvent)
    requires Together(envs, sts) && SaneFor(e, envs, sts)
    ensures |envs| == |sts| > 0 && (e.Notified? ==> e.q < |sts| && WellFormed(envs[e.q], sts[e.q]))
    ensures (e.DeviceReset? ==> |e.maxLens| == |envs|) && (e.Outside? ==> |e.envs| == |envs|)
  {
  }

  lemma PartOfTogether(envs: seq<Env>, sts: seq<St>, i: nat)
    requires Together(envs, sts) && i < |sts|
    ensures |envs| == |sts| && WellFormed(envs[i], sts[i])
  {
  }

  lemma OneMore(env: Env, st: St, e: Event, rest: seq<Event>)
    requires WellFormed(env, st) && Sane(e, |st.mem|, st.units.Keys)
    requires AllSane(rest, |st.mem|, st.units.Keys)
    ensures AllSane([e] + rest, |st.mem|, st.units.Keys)
    ensures Run(env, st, [e] + rest)
         == if Step(env, st, e).Ok? then Run(NextEnv(env, e), Step(env, st, e).st, rest) else Step(env, st, e)
  {
    hide Step;
    hide Sane;
    var es := [e] + rest;
    assert es[0] == e && es[1..] == rest;
    forall i | 0 <= i < |es| ensures Sane(es[i], |st.mem|, st.units.Keys) {
      if i > 0 { assert es[i] == rest[i - 1]; }
    }
  }

  // ---- What holds of every queue ---------------------------------------------------------

  /** Whatever the guest does with all queues: in each of them every head handed
      over is completed or dropped, but for the one at which a run ends otherwise;
      and the ISR register is 1 exactly when some queue posted a completion since
      it was last read, with the line up exactly then. */
  lemma EveryQueue(envs: seq<Env>, sts: seq<St>, es: seq<DeviceEvent>, i: nat)
    requires Together(envs, sts) && AllSaneFor(envs, sts, es) && i < |sts| && Open(sts[i]) == 0
    requires WellFormed(envs[i], sts[i])
    ensures AllSane(Projected(envs, sts, es, i), |sts[i].mem|, sts[i].units.Keys)
    ensures var d, es' := DeviceRun(envs, sts, es), Projected(envs, sts, es, i);
      && (if d.1 then Open(d.0[i]) == 0 else 0 <= Open(d.0[i]) <= 1)
      && d.0[i].isr == (if Pending(envs[i], sts[i], es', sts[i].isr == 1) then 1 else 0)
      && d.0[i].line == (d.0[i].isr == 1)
  {
    hide DeviceRun;
    hide Projected;
    hide Run;
    hide Pending;
    assert Sharing(sts[i], sts[0]);
    RunProjects(envs, sts, es, i);
    var es' := Projected(envs, sts, es, i);
    RunHistory(envs[i], sts[i], es');
    IsrIffPosted(envs[i], sts[i], es');
  }

  // ---- Careful drivers ------------------------------------------------------------------------

  /** The used rings of the other queues are kept. */
  ghost predicate KeepsOtherRings(envs: seq<Env>, q: nat, keep: set<nat>) {
    forall i :: 0 <= i < |envs| && i != q ==> KeepsRing(envs[i], keep)
  }

  ghost predicate KeepsRing(env: Env, keep: set<nat>) {
    forall a: nat :: env.device <= a < env.device + UsedLen(env) && Translate(env.slots, a).Some?
      ==> Translate(env.slots, a).value in keep
  }

  /** What a driver of several queues owes the device: each ring as the protocol
      has it, and at a notification chains that stay out of the descriptor table,
      each other's requests and every queue's used ring. */
  ghost predicate CarefulFor(envs: seq<Env>, sts: seq<St>, e: DeviceEvent)
    requires Together(envs, sts) && SaneFor(e, envs, sts)
    requires forall i :: 0 <= i < |envs| ==> RingMapped(envs[i])
  {
    match e
    case Notified(q, published) =>
      SaneFacts(envs, sts, e);
      && RingMapped(envs[q]) && Allowed(envs[q], sts[q], NotifyQueue(published))
      && |sts[q].heads| <= |published|
      && var pending := published[|sts[q].heads|..];
         && AllServed(envs[q], sts[q].mem, pending) && RingSpared(envs[q], sts[q].mem, pending)
         && exists keep :: Separate(envs[q], sts[q].mem, pending, keep) && KeepsOtherRings(envs, q, keep)
    case IsrRead => true
    case DeviceReset(_) => false
    case Outside(envs', mem, _) =>
      && envs' == envs
      && forall i :: 0 <= i < |envs| ==>
           && WellFormed(envs[i], sts[i]) && RingMapped(envs[i])
           && FlatBytes(envs[i].slots, mem, envs[i].device, UsedLen(envs[i]))
              == FlatBytes(envs[i].slots, sts[i].mem, envs[i].device, UsedLen(envs[i]))
  }

  lemma KeptRing(env: Env, mem: seq<byte>, mem': seq<byte>, keep: set<nat>)
    requires SlotsInRam(env.slots, |mem|) && RingMapped(env) && Agree(mem, mem', keep) && KeepsRing(env, keep)
    ensures FlatBytes(env.slots, mem', env.device, UsedLen(env)) == FlatBytes(env.slots, mem, env.device, UsedLen(env))
  {
    var at := Flat(env.slots, env.device, UsedLen(env));
    forall k | 0 <= k < |at| ensures at[k] < |mem| && mem'[at[k]] == mem[at[k]] {
      assert Translate(env.slots, env.device + k) == Some(at[k]);
    }
  }

  /** A notification of one queue leaves alone what its chains and its used ring
      stay clear of, however it ends. */
  lemma NotifyAgrees(env: Env, st: St, published: seq<nat>, keep: set<nat>)
    requires WellFormed(env, st) && RingMapped(env) && st.avail == |st.heads| % INDEX_SPAN
    requires Allowed(env, st, NotifyQueue(published)) && |st.heads| <= |published|
    requires Separate(env, st.mem, published[|st.heads|..], keep)
    ensures Agree(st.mem, Notify(env, st).st.mem, keep)
  {
    hide ReadBack;
    hide Drain;
    hide RingHeads;
    hide ProcessAll;
    hide Separate;
    hide Agree;
    var ring := ReadBack(env.slots, st.mem, env.driver, RingLen(env.qlen)).bytes;
    RingHeadsArePublished(ring, env.qlen, published, |st.heads|);
    DrainIsProcessAll(env, st, ring, st.avail, RingIndex(ring, env.qlen));
    AllOkIff(env, st, published[|st.heads|..], keep);
  }

  /** A careful notification on one queue is, for every other queue, something that
      follows the protocol. */
  lemma OtherQueueIsAllowed(envs: seq<Env>, sts: seq<St>, q: nat, published: seq<nat>, i: nat)
    requires Together(envs, sts) && q < |sts| && i < |sts| && i != q
    requires forall j :: 0 <= j < |envs| ==> RingMapped(envs[j])
    requires WellFormed(envs[i], sts[i]) && sts[q].avail == |sts[q].heads| % INDEX_SPAN
    requires CarefulFor(envs, sts, Notified(q, published))
    ensures Allowed(envs[i], sts[i], Project(envs, sts, Notified(q, published), i))
  {
    hide Notify;
    hide Separate;
    hide AllServed;
    hide RingSpared;
    hide SnapshotHolds;
    hide FlatBytes;
    hide Agree;
    hide KeepsRing;
    assert Sharing(sts[q], sts[0]) && Sharing(sts[i], sts[0]) && WellFormed(envs[q], sts[q]);
    assert RingMapped(envs[q]) && RingMapped(envs[i]);
    var pending := published[|sts[q].heads|..];
    var keep :| Separate(envs[q], sts[q].mem, pending, keep) && KeepsOtherRings(envs, q, keep);
    assert KeepsRing(envs[i], keep);
    NotifyAgrees(envs[q], sts[q], published, keep);
    KeptRing(envs[i], sts[q].mem, Notify(envs[q], sts[q]).st.mem, keep);
  }

  ghost predicate AllMapped(envs: seq<Env>) { forall i :: 0 <= i < |envs| ==> RingMapped(envs[i]) }

  /** No reply was written into a used ring, and the counters are in step. */
  ghost predicate InStep(envs: seq<Env>, sts: seq<St>)
    requires |envs| == |sts|
  {
    forall i :: 0 <= i < |sts| ==> QueueInStep(envs[i], sts[i])
  }

  ghost predicate QueueInStep(env: Env, st: St) { AllAvoid(env, st.done) && st.avail == |st.heads| % INDEX_SPAN }

  ghost predicate AllCarefulFor(envs: seq<Env>, sts: seq<St>, es: seq<DeviceEvent>)
    requires Together(envs, sts) && AllMapped(envs)
    decreases |es|
  {
    es == [] ||
    ( && SaneFor(es[0], envs, sts) && CarefulFor(envs, sts, es[0])
      && (StepKeepsTogether(envs, sts, es[0]);
          AllCarefulFor(envs, DeviceStep(envs, sts, es[0]).0, es[1..])))
  }

  /** For each queue, an event of a careful driver follows the protocol, is careful
      and ends normally, and the counters stay in step. */
  lemma CarefulStep(envs: seq<Env>, sts: seq<St>, e: DeviceEvent, i: nat)
    requires Together(envs, sts) && AllMapped(envs) && SaneFor(e, envs, sts) && CarefulFor(envs, sts, e)
    requires InStep(envs, sts) && i < |sts| && WellFormed(envs[i], sts[i]) && RingMapped(envs[i])
    ensures NextEnvs(envs, e) == envs && DeviceStep(envs, sts, e).1
    ensures var p := Project(envs, sts, e, i);
      && Sane(p, |sts[i].mem|, sts[i].units.Keys)
      && Allowed(envs[i], sts[i], p) && Careful(envs[i], sts[i], p) && NextEnv(envs[i], p) == envs[i]
      && Step(envs[i], sts[i], p) == Ok(DeviceStep(envs, sts, e).0[i])
      && QueueInStep(envs[i], DeviceStep(envs, sts, e).0[i])
  {
    hide Notify;
    hide Separate;
    hide AllServed;
    hide RingSpared;
    hide SnapshotHolds;
    hide FlatBytes;
    hide AllAvoid;
    hide ReadBack;
    hide RingMapped;
    hide WellFormed;
    StepProjects(envs, sts, e, i);
    match e {
      case Notified(q, published) =>
        PartOfTogether(envs, sts, q);
        assert RingMapped(envs[q]) && QueueInStep(envs[q], sts[q]) && QueueInStep(envs[i], sts[i]);
        CarefulIsSound(envs, sts, q, published);
        SoundNotify(envs[q], sts[q], published);
        if i != q { OtherQueueIsAllowed(envs, sts, q, published, i); }
      case IsrRead => assert QueueInStep(envs[i], sts[i]);
      case DeviceReset(_) =>
      case Outside(_, _, _) => assert QueueInStep(envs[i], sts[i]);
    }
  }

  lemma CarefulIsSound(envs: seq<Env>, sts: seq<St>, q: nat, published: seq<nat>)
    requires Together(envs, sts) && AllMapped(envs) && q < |sts| && WellFormed(envs[q], sts[q]) && RingMapped(envs[q])
    requires CarefulFor(envs, sts, Notified(q, published))
    ensures Allowed(envs[q], sts[q], NotifyQueue(published)) && Careful(envs[q], sts[q], NotifyQueue(published))
  {
    hide Separate;
    hide AllServed;
    hide RingSpared;
    hide SnapshotHolds;
    hide ReadBack;
  }

  lemma CarefulStepForAll(envs: seq<Env>, sts: seq<St>, e: DeviceEvent)
    requires Together(envs, sts) && AllMapped(envs) && SaneFor(e, envs, sts) && CarefulFor(envs, sts, e)
    requires InStep(envs, sts)
    ensures NextEnvs(envs, e) == envs && DeviceStep(envs, sts, e).1
    ensures Together(envs, DeviceStep(envs, sts, e).0) && InStep(envs, DeviceStep(envs, sts, e).0)
  {
    hide QueueInStep;
    hide DeviceStep;
    hide CarefulFor;
    hide SaneFor;
    hide Together;
    hide RingMapped;
    StepKeepsTogether(envs, sts, e);
    SaneFacts(envs, sts, e);
    forall i | 0 <= i < |sts|
      ensures QueueInStep(envs[i], DeviceStep(envs, sts, e).0[i]) && NextEnvs(envs, e) == envs
      ensures DeviceStep(envs, sts, e).1
    {
      PartOfTogether(envs, sts, i);
      CarefulStep(envs, sts, e, i);
    }
    assert 0 < |sts|;
  }

  /** The last sequence published on queue `i`. */
  function LastPublishedOn(es: seq<DeviceEvent>, i: nat, before: seq<nat>): seq<nat>
    decreases |es|
  {
    if es == [] then before
    else LastPublishedOn(es[1..], i, if es[0].Notified? && es[0].q == i then es[0].published else before)
  }

  lemma {:induction false} CarefulProjects(envs: seq<Env>, sts: seq<St>, es: seq<DeviceEvent>, i: nat, before: seq<nat>)
    requires Together(envs, sts) && AllMapped(envs) && AllCarefulFor(envs, sts, es) && InStep(envs, sts)
    requires i < |sts| && WellFormed(envs[i], sts[i]) && RingMapped(envs[i])
    ensures AllSaneFor(envs, sts, es) && DeviceRun(envs, sts, es).1
    ensures var es' := Projected(envs, sts, es, i);
      && AllSane(es', |sts[i].mem|, sts[i].units.Keys)
      && RunAllowed(envs[i], sts[i], es') && RunCareful(envs[i], sts[i], es')
      && LastPublished(es', before) == LastPublishedOn(es, i, before)
    decreases |es|
  {
    hide Step;
    hide DeviceStep;
    hide Together;
    hide SaneFor;
    hide CarefulFor;
    hide InStep;
    hide Allowed;
    hide Careful;
    hide RingMapped;
    hide WellFormed;
    hide Sane;
    if es != [] {
      var e := es[0];
      SaneFacts(envs, sts, e);
      CarefulStep(envs, sts, e, i);
      CarefulStepForAll(envs, sts, e);
      var sts', p := DeviceStep(envs, sts, e).0, Project(envs, sts, e, i);
      PartOfTogether(envs, sts', i);
      var next := if p.NotifyQueue? then p.published else before;
      CarefulProjects(envs, sts', es[1..], i, next);
      var rest := Projected(envs, sts', es[1..], i);
      assert Projected(envs, sts, es, i) == [p] + rest;
      MappedRing(envs[i]);
      MoreAllowed(envs[i], sts[i], p, rest, before);
    }
  }

  lemma MoreAllowed(env: Env, st: St, e: Event, rest: seq<Event>, before: seq<nat>)
    requires WellFormed(env, st) && RingMapped(env) && Mapped(env.slots, env.device, UsedLen(env))
    requires Sane(e, |st.mem|, st.units.Keys) && AllSane(rest, |st.mem|, st.units.Keys)
    requires Allowed(env, st, e) && Careful(env, st, e) && NextEnv(env, e) == env && Step(env, st, e).Ok?
    requires RunAllowed(env, Step(env, st, e).st, rest) && RunCareful(env, Step(env, st, e).st, rest)
    ensures AllSane([e] + rest, |st.mem|, st.units.Keys)
    ensures RunAllowed(env, st, [e] + rest) && RunCareful(env, st, [e] + rest)
    ensures LastPublished([e] + rest, before) == LastPublished(rest, if e.NotifyQueue? then e.published else before)
  {
    hide Step;
    hide Sane;
    hide Allowed;
    hide Careful;
    OneMore(env, st, e, rest);
    assert ([e] + rest)[0] == e && ([e] + rest)[1..] == rest;
  }

  /** Exactly once on every queue of the device: since a reset, for a driver that
      follows the protocol and is careful on all queues, with used rings apart from
      everything else, every event ends normally, and on each queue the heads
      handed over are those published there, each is completed or dropped, and the
      used ring accounts for every completion. */
  lemma EveryQueueSinceReset(envs: seq<Env>, sts: seq<St>, es: seq<DeviceEvent>, i: nat)
    requires Together(envs, sts) && AllMapped(envs) && AllCarefulFor(envs, sts, es)
    requires forall j :: 0 <= j < |sts| ==> AtReset(sts[j])
    requires i < |sts| && WellFormed(envs[i], sts[i]) && UsedRingPlaced(envs[i])
    ensures AllSaneFor(envs, sts, es) && DeviceRun(envs, sts, es).1
    ensures var st := DeviceRun(envs, sts, es).0[i];
      && WellFormed(envs[i], st)
      && st.heads == LastPublishedOn(es, i, [])
      && |st.heads| == |st.done| + |st.dropped| && UsedRingHolds(envs[i], st)
  {
    hide AllCarefulFor;
    hide DeviceRun;
    hide Projected;
    hide Run;
    hide RunAllowed;
    hide RunCareful;
    hide UsedRingHolds;
    hide Together;
    PartOfTogether(envs, sts, i);
    forall j | 0 <= j < |sts| ensures QueueInStep(envs[j], sts[j]) { assert AtReset(sts[j]); }
    CarefulProjects(envs, sts, es, i, []);
    RunProjects(envs, sts, es, i);
    assert AtReset(sts[i]);
    CarefulSinceReset(envs[i], sts[i], Projected(envs, sts, es, i));
  }

  ghost predicate AtReset(st: St) {
    st.avail == st.used == 0 && st.heads == [] && st.done == [] && st.dropped == [] && st.unposted == []
  }
}

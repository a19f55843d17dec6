/** The descriptor walk: when it ends, after how many descriptors, and what it
    collects. */
module ChainProofs {
  import opened Common
  import opened Bytes
  import opened Extents
  import opened GuestMap
  import opened VirtQueue

  // ---- The walk as the source writes it: a loop without a bound ---------------

  datatype LoopState = Running(idx: nat, rd: seq<MemoryExtent>, wr: seq<MemoryExtent>) | Ended(result: WalkResult)

  /** One turn of the loop. */
  function Turn(env: Env, mem: seq<byte>, s: LoopState): LoopState
    requires SlotsInRam(env.slots, |mem|)
  {
    if s.Ended? then s
    else
      var v := VisitAt(env, mem, s.idx);
      match v
      case Drop => Ended(Dropped)
      case Fail => Ended(Failed)
      case Piece(d, es) =>
        if v.Last() then Ended(Chain(s.rd + v.Readable(), s.wr + v.Writables()))
        else Running(d.next, s.rd + v.Readable(), s.wr + v.Writables())
  }

  function Turns(env: Env, mem: seq<byte>, s: LoopState, n: nat): LoopState
    requires SlotsInRam(env.slots, |mem|)
    decreases n
  {
    if n == 0 then s else Turns(env, mem, Turn(env, mem, s), n - 1)
  }

  lemma {:induction false} EndedStays(env: Env, mem: seq<byte>, s: LoopState, n: nat)
    requires SlotsInRam(env.slots, |mem|) && s.Ended?
    ensures Turns(env, mem, s, n) == s
  {
    if n > 0 { EndedStays(env, mem, s, n - 1); }
  }

  lemma {:induction false} TurnsAdd(env: Env, mem: seq<byte>, s: LoopState, m: nat, n: nat)
    requires SlotsInRam(env.slots, |mem|)
    ensures Turns(env, mem, s, m + n) == Turns(env, mem, Turns(env, mem, s, m), n)
    decreases m
  {
    if m > 0 { TurnsAdd(env, mem, Turn(env, mem, s), m - 1, n); }
  }

  lemma {:induction false} EndsOnce(env: Env, mem: seq<byte>, s: LoopState, m: nat, n: nat)
    requires SlotsInRam(env.slots, |mem|)
    requires Turns(env, mem, s, m).Ended? && Turns(env, mem, s, n).Ended?
    ensures Turns(env, mem, s, m) == Turns(env, mem, s, n)
  {
    if m <= n {
      TurnsAdd(env, mem, s, m, n - m);
      EndedStays(env, mem, Turns(env, mem, s, m), n - m);
    } else {
      TurnsAdd(env, mem, s, n, m - n);
      EndedStays(env, mem, Turns(env, mem, s, n), m - n);
    }
  }

  // ---- Termination ----------------------------------------------------------

  /** A walk that does not revisit an index ends within the queue's length: each
      of the `n` descriptors it reads has its own index below `qlen`. */
  lemma {:induction false} WalkEnds(env: Env, mem: seq<byte>, idx: nat, seen: set<nat>, rd: seq<MemoryExtent>,
                                    wr: seq<MemoryExtent>)
    returns (n: nat)
    requires SlotsInRam(env.slots, |mem|) && seen <= Below(env.qlen)
    requires Walk(env, mem, idx, seen, rd, wr) != Endless
    ensures |seen| <= env.qlen
    ensures 0 < n <= env.qlen - |seen| + 1
    ensures Walk(env, mem, idx, seen, rd, wr).Chain? ==> n <= env.qlen - |seen|
    ensures Turns(env, mem, Running(idx, rd, wr), n) == Ended(Walk(env, mem, idx, seen, rd, wr))
    decreases Below(env.qlen) - seen
  {
    SubsetSize(seen, Below(env.qlen));
    var v := VisitAt(env, mem, idx);
    var s := Running(idx, rd, wr);
    n := 1;
    assert Turns(env, mem, Turn(env, mem, s), 0) == Turn(env, mem, s);
    if v.Piece? {
      assert idx in Below(env.qlen) - seen;
      SubsetSize(seen + {idx}, Below(env.qlen));
      if !v.Last() {
        var m := WalkEnds(env, mem, v.d.next, seen + {idx}, rd + v.Readable(), wr + v.Writables());
        n := m + 1;
      }
    }
  }

  lemma {:induction false} SubsetSize(a: set<nat>, b: set<nat>)
    requires a <= b
    ensures |a| <= |b|
  {
    if a != {} {
      var x :| x in a;
      SubsetSize(a - {x}, b - {x});
    }
  }

  /** All of `trap` leads back into `trap`. */
  ghost predicate Trap(env: Env, mem: seq<byte>, trap: set<nat>)
    requires SlotsInRam(env.slots, |mem|)
  {
    forall i :: i in trap ==> LeadsInto(env, mem, i, trap)
  }

  ghost predicate LeadsInto(env: Env, mem: seq<byte>, i: nat, trap: set<nat>)
    requires SlotsInRam(env.slots, |mem|)
  {
    var v := VisitAt(env, mem, i);
    v.Piece? && !v.Last() && v.d.next in trap
  }

  /** A revisit means that the indices seen so far can never be left. */
  lemma {:induction false} WalkTrapped(env: Env, mem: seq<byte>, idx: nat, seen: set<nat>, rd: seq<MemoryExtent>,
                                       wr: seq<MemoryExtent>)
    returns (trap: set<nat>)
    requires SlotsInRam(env.slots, |mem|)
    requires forall i :: i in seen ==> LeadsInto(env, mem, i, seen + {idx})
    requires Walk(env, mem, idx, seen, rd, wr) == Endless
    ensures Trap(env, mem, trap) && seen <= trap && idx in trap
    decreases Below(env.qlen) - seen
  {
    if idx in seen {
      trap := seen;
      assert seen + {idx} == seen;
    } else {
      var v := VisitAt(env, mem, idx);
      assert idx in Below(env.qlen) - seen;
      trap := WalkTrapped(env, mem, v.d.next, seen + {idx}, rd + v.Readable(), wr + v.Writables());
    }
  }

  lemma {:induction false} TrapNeverEnds(env: Env, mem: seq<byte>, trap: set<nat>, s: LoopState, n: nat)
    requires SlotsInRam(env.slots, |mem|) && Trap(env, mem, trap)
    requires s.Running? && s.idx in trap
    ensures Turns(env, mem, s, n).Running?
    decreases n
  {
    hide VisitAt;
    if n > 0 {
      assert LeadsInto(env, mem, s.idx, trap);
      TrapNeverEnds(env, mem, trap, Turn(env, mem, s), n - 1);
    }
  }

  /** The unbounded loop ends exactly when no index is visited twice, with the
      result the walk gives. */
  lemma LoopEndsIffNoRevisit(env: Env, mem: seq<byte>, head: nat)
    requires SlotsInRam(env.slots, |mem|)
    ensures (exists n :: Turns(env, mem, Running(head, [], []), n).Ended?)
       <==> Walk(env, mem, head, {}, [], []) != Endless
    ensures forall n :: Turns(env, mem, Running(head, [], []), n).Ended?
              ==> Turns(env, mem, Running(head, [], []), n) == Ended(Walk(env, mem, head, {}, [], []))
  {
    var s := Running(head, [], []);
    if Walk(env, mem, head, {}, [], []) == Endless {
      var trap := WalkTrapped(env, mem, head, {}, [], []);
      forall n ensures Turns(env, mem, s, n).Running? { TrapNeverEnds(env, mem, trap, s, n); }
    } else {
      var m := WalkEnds(env, mem, head, {}, [], []);
      assert Turns(env, mem, s, m).Ended?;
      forall n | Turns(env, mem, s, n).Ended? ensures Turns(env, mem, s, n) == Turns(env, mem, s, m) {
        EndsOnce(env, mem, s, m, n);
      }
    }
  }

  // ---- Endless chains, without the walk ---------------------------------------

  /** Each descriptor of the path names the next one. */
  ghost predicate LinkPath(env: Env, mem: seq<byte>, path: seq<nat>)
    requires SlotsInRam(env.slots, |mem|)
  {
    path != [] && forall i :: 0 <= i < |path| - 1 ==> Links(env, mem, path[i], path[i + 1])
  }

  ghost predicate Repeats(path: seq<nat>) {
    exists i, j :: 0 <= i < j < |path| && path[i] == path[j]
  }

  lemma {:induction false} EndlessPath(env: Env, mem: seq<byte>, idx: nat, seen: set<nat>, rd: seq<MemoryExtent>,
                                       wr: seq<MemoryExtent>, prefix: seq<nat>) returns (path: seq<nat>)
    requires SlotsInRam(env.slots, |mem|) && LinkPath(env, mem, prefix + [idx])
    requires forall i :: i in seen ==> i in prefix
    requires Walk(env, mem, idx, seen, rd, wr) == Endless
    ensures LinkPath(env, mem, path) && prefix + [idx] <= path && Repeats(path)
    decreases Below(env.qlen) - seen
  {
    path := prefix + [idx];
    if idx in seen {
      var i :| 0 <= i < |prefix| && prefix[i] == idx;
      assert path[i] == path[|prefix|];
    } else {
      var v := VisitAt(env, mem, idx);
      assert idx in Below(env.qlen) - seen;
      assert Links(env, mem, idx, v.d.next);
      var rd', wr' := rd + v.Readable(), wr + v.Writables();
      LongerPath(env, mem, path, v.d.next);
      path := EndlessPath(env, mem, v.d.next, seen + {idx}, rd', wr', path);
    }
  }

  lemma LongerPath(env: Env, mem: seq<byte>, path: seq<nat>, next: nat)
    requires SlotsInRam(env.slots, |mem|) && LinkPath(env, mem, path) && Links(env, mem, path[|path| - 1], next)
    ensures LinkPath(env, mem, path + [next])
  {
    hide Links;
  }

  lemma RepeatTraps(env: Env, mem: seq<byte>, path: seq<nat>) returns (trap: set<nat>)
    requires SlotsInRam(env.slots, |mem|) && LinkPath(env, mem, path) && Repeats(path)
    ensures Trap(env, mem, trap) && path[0] in trap
  {
    hide VisitAt;
    var i, j :| 0 <= i < j < |path| && path[i] == path[j];
    trap := set k | 0 <= k < j :: path[k];
    forall x | x in trap ensures LeadsInto(env, mem, x, trap) {
      var k :| 0 <= k < j && path[k] == x;
      assert Links(env, mem, path[k], path[k + 1]);
      assert path[if k + 1 < j then k + 1 else i] == path[k + 1];
    }
  }

  /** The loop never ends exactly when some path of descriptors from the head,
      each naming the next, comes to the same descriptor twice. */
  lemma LoopEndlessIffRepeats(env: Env, mem: seq<byte>, head: nat)
    requires SlotsInRam(env.slots, |mem|)
    ensures (forall n :: Turns(env, mem, Running(head, [], []), n).Running?)
       <==> exists path :: LinkPath(env, mem, path) && path[0] == head && Repeats(path)
  {
    hide Walk;
    LoopEndsIffNoRevisit(env, mem, head);
    if Walk(env, mem, head, {}, [], []) == Endless {
      assert [] + [head] == [head];
      var path := EndlessPath(env, mem, head, {}, [], [], []);
      assert path[0] == ([] + [head])[0];
    }
    forall path | LinkPath(env, mem, path) && path[0] == head && Repeats(path)
      ensures forall n :: Turns(env, mem, Running(head, [], []), n).Running?
    {
      var trap := RepeatTraps(env, mem, path);
      forall n ensures Turns(env, mem, Running(head, [], []), n).Running? {
        TrapNeverEnds(env, mem, trap, Running(head, [], []), n);
      }
    }
  }

  // ---- What a finished walk collected -----------------------------------------

  /** `path` lists the descriptors of a complete chain in order. */
  ghost predicate IsChain(env: Env, mem: seq<byte>, path: seq<nat>)
    requires SlotsInRam(env.slots, |mem|)
  {
    && path != []
    && (forall i :: 0 <= i < |path| ==> VisitAt(env, mem, path[i]).Piece?)
    && (forall i :: 0 <= i < |path| - 1 ==> Links(env, mem, path[i], path[i + 1]))
    && VisitAt(env, mem, path[|path| - 1]).Last()
  }

  ghost predicate Links(env: Env, mem: seq<byte>, a: nat, b: nat)
    requires SlotsInRam(env.slots, |mem|)
  {
    var v := VisitAt(env, mem, a);
    v.Piece? && !v.Last() && v.d.next == b
  }

  /** The buffers of the path's readable (or writable) descriptors, in order. */
  function Gather(env: Env, mem: seq<byte>, path: seq<nat>, writable: bool): seq<MemoryExtent>
    requires SlotsInRam(env.slots, |mem|)
    requires forall i :: 0 <= i < |path| ==> VisitAt(env, mem, path[i]).Piece?
  {
    if path == [] then []
    else
      var v := VisitAt(env, mem, path[0]);
      (if v.Writable() == writable then v.es else []) + Gather(env, mem, path[1..], writable)
  }

  function TotalLen(env: Env, mem: seq<byte>, path: seq<nat>): nat
    requires SlotsInRam(env.slots, |mem|)
    requires forall i :: 0 <= i < |path| ==> VisitAt(env, mem, path[i]).Piece?
  {
    if path == [] then 0 else VisitAt(env, mem, path[0]).d.len + TotalLen(env, mem, path[1..])
  }

  lemma {:induction false} TurnsOfChain(env: Env, mem: seq<byte>, path: seq<nat>, rd: seq<MemoryExtent>,
                                        wr: seq<MemoryExtent>)
    requires SlotsInRam(env.slots, |mem|) && IsChain(env, mem, path)
    ensures Turns(env, mem, Running(path[0], rd, wr), |path|)
         == Ended(Chain(rd + Gather(env, mem, path, false), wr + Gather(env, mem, path, true)))
    ensures forall n :: 0 <= n < |path| ==> Turns(env, mem, Running(path[0], rd, wr), n).Running?
    decreases |path|
  {
    var v := VisitAt(env, mem, path[0]);
    var rd', wr' := rd + v.Readable(), wr + v.Writables();
    var s := Running(path[0], rd, wr);
    if |path| == 1 {
      assert path[1..] == [];
      assert Turns(env, mem, Turn(env, mem, s), 0) == Turn(env, mem, s);
      assert v.Readable() + [] == v.Readable() && v.Writables() + [] == v.Writables();
    } else {
      assert Links(env, mem, path[0], path[1]);
      TurnsOfChain(env, mem, path[1..], rd', wr');
      ConcatAssoc(rd, v.Readable(), Gather(env, mem, path[1..], false));
      ConcatAssoc(wr, v.Writables(), Gather(env, mem, path[1..], true));
      forall n | 0 <= n < |path| ensures Turns(env, mem, s, n).Running? {
        if n > 0 { assert Turns(env, mem, s, n) == Turns(env, mem, Turn(env, mem, s), n - 1); }
      }
    }
  }

  /** A complete chain is walked to its end, over at most `qlen` descriptors,
      and the walk collects its buffers in order. */
  lemma ChainIsWalked(env: Env, mem: seq<byte>, path: seq<nat>)
    requires SlotsInRam(env.slots, |mem|) && IsChain(env, mem, path)
    ensures |path| <= env.qlen
    ensures Walk(env, mem, path[0], {}, [], [])
         == Chain(Gather(env, mem, path, false), Gather(env, mem, path, true))
  {
    var s := Running(path[0], [], []);
    TurnsOfChain(env, mem, path, [], []);
    assert Turns(env, mem, s, |path|).Ended?;
    LoopEndsIffNoRevisit(env, mem, path[0]);
    assert [] + Gather(env, mem, path, false) == Gather(env, mem, path, false);
    assert [] + Gather(env, mem, path, true) == Gather(env, mem, path, true);
    var m := WalkEnds(env, mem, path[0], {}, [], []);
    assert Turns(env, mem, s, m).Ended?;
  }

  lemma ChainCons(env: Env, mem: seq<byte>, idx: nat, rest: seq<nat>)
    requires SlotsInRam(env.slots, |mem|) && IsChain(env, mem, rest) && Links(env, mem, idx, rest[0])
    ensures IsChain(env, mem, [idx] + rest)
  {
    var path := [idx] + rest;
    forall i | 0 <= i < |path| ensures VisitAt(env, mem, path[i]).Piece? {
      if i > 0 { assert path[i] == rest[i - 1]; }
    }
    forall i | 0 <= i < |path| - 1 ensures Links(env, mem, path[i], path[i + 1]) {
      if i > 0 { assert path[i] == rest[i - 1] && path[i + 1] == rest[i]; }
    }
    assert path[|path| - 1] == rest[|rest| - 1];
  }

  /** Whenever the walk ends with a chain, there is such a path. */
  lemma {:induction false} WalkFollowsChain(env: Env, mem: seq<byte>, idx: nat, seen: set<nat>, rd: seq<MemoryExtent>,
                                            wr: seq<MemoryExtent>)
    returns (path: seq<nat>)
    requires SlotsInRam(env.slots, |mem|)
    requires Walk(env, mem, idx, seen, rd, wr).Chain?
    ensures IsChain(env, mem, path) && path[0] == idx
    decreases Below(env.qlen) - seen
  {
    var v := VisitAt(env, mem, idx);
    path := [idx];
    if !v.Last() {
      assert idx in Below(env.qlen) - seen;
      var rest := WalkFollowsChain(env, mem, v.d.next, seen + {idx}, rd + v.Readable(), wr + v.Writables());
      ChainCons(env, mem, idx, rest);
      path := [idx] + rest;
    }
  }

  /** The walk yields a chain exactly when `head` starts one; then every byte of
      every descriptor ends up in one of the two buffers. */
  lemma WalkChainIff(env: Env, mem: seq<byte>, head: nat)
    requires SlotsInRam(env.slots, |mem|)
    ensures Walk(env, mem, head, {}, [], []).Chain?
       <==> exists path :: IsChain(env, mem, path) && path[0] == head
    ensures forall path :: IsChain(env, mem, path) && path[0] == head ==>
      var w := Walk(env, mem, head, {}, [], []);
      w.Chain? && |Addrs(w.rd)| + |Addrs(w.wr)| == TotalLen(env, mem, path)
  {
    if Walk(env, mem, head, {}, [], []).Chain? {
      var path := WalkFollowsChain(env, mem, head, {}, [], []);
    }
    forall path | IsChain(env, mem, path) && path[0] == head
      ensures var w := Walk(env, mem, head, {}, [], []);
        w.Chain? && |Addrs(w.rd)| + |Addrs(w.wr)| == TotalLen(env, mem, path)
    {
      ChainIsWalked(env, mem, path);
      GatheredLen(env, mem, path);
    }
  }

  lemma {:induction false} GatheredLen(env: Env, mem: seq<byte>, path: seq<nat>)
    requires SlotsInRam(env.slots, |mem|)
    requires forall i :: 0 <= i < |path| ==> VisitAt(env, mem, path[i]).Piece?
    ensures |Addrs(Gather(env, mem, path, false))| + |Addrs(Gather(env, mem, path, true))| == TotalLen(env, mem, path)
  {
    if path != [] {
      var v := VisitAt(env, mem, path[0]);
      ResolveIffMapped(env.slots, v.d.addr, v.d.len);
      ResolveCovers(env.slots, v.d.addr, v.d.len);
      GatheredLen(env, mem, path[1..]);
      AddrsConcat(if v.Writable() then [] else v.es, Gather(env, mem, path[1..], false));
      AddrsConcat(if v.Writable() then v.es else [], Gather(env, mem, path[1..], true));
    }
  }
}

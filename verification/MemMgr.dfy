/** The slot table of the guest's memory and the accesses that go through it
    (memmgr.py, `MemorySlot` and `MemoryManager`). */
module MemMgr {
  import opened Common
  import opened Bytes
  import opened Extents
  import opened Buffers
  import opened GuestMap

  class MemorySlot {
    const mgr: MemoryManager
    const slotNo: nat
    const guestPhysAddr: nat
    const userspaceAddr: nat
    const ro: bool
    var len: nat
    var destroyed: bool

    constructor (mgr: MemoryManager, slotNo: nat, guestPhysAddr: nat, userspaceAddr: nat, len: nat, ro: bool)
      ensures this.mgr == mgr && this.slotNo == slotNo && this.ro == ro && !destroyed
      ensures this.guestPhysAddr == guestPhysAddr && this.userspaceAddr == userspaceAddr && this.len == len
    {
      this.mgr, this.slotNo, this.guestPhysAddr := mgr, slotNo, guestPhysAddr;
      this.userspaceAddr, this.len, this.ro, this.destroyed := userspaceAddr, len, ro, false;
    }

    function Range(): SlotRange
      reads this
    {
      SlotRange(guestPhysAddr, userspaceAddr, len)
    }

    /** Gives the slot number back; a second call changes nothing. */
    method Teardown()
      requires mgr.Valid() && this in mgr.made
      modifies mgr, this
      ensures mgr.Valid() && destroyed && mgr.made == old(mgr.made)
      ensures mgr.nextSlotNo == old(mgr.nextSlotNo) && mgr.peak == old(mgr.peak)
      ensures if old(destroyed) then
                len == old(len) && mgr.slots == old(mgr.slots) && mgr.freeSlots == old(mgr.freeSlots)
              else
                && (slotNo, this) in old(mgr.slots)
                && mgr.slots == Without(old(mgr.slots), slotNo)
                && mgr.freeSlots == old(mgr.freeSlots) + {slotNo}
                && len == 0
    {
      if destroyed { return; }
      len := 0;
      NumberedRemove(mgr.slots, mgr.freeSlots, mgr.nextSlotNo, slotNo, this);
      mgr.slots := Without(mgr.slots, slotNo);
      mgr.freeSlots := mgr.freeSlots + {slotNo};
      destroyed := true;
    }
  }

  // ---- The slot dictionary: items in insertion order -----------------------

  type SlotDict = seq<(nat, MemorySlot)>

  function Keys(d: SlotDict): set<nat> { set i | 0 <= i < |d| :: d[i].0 }

  ghost predicate UniqueKeys(d: SlotDict) {
    forall i, j :: 0 <= i < j < |d| ==> d[i].0 != d[j].0
  }

  /** `del d[key]` */
  function Without(d: SlotDict, key: nat): SlotDict {
    if d == [] then []
    else if d[0].0 == key then d[1..]
    else [d[0]] + Without(d[1..], key)
  }

  lemma {:induction false} WithoutKey(d: SlotDict, key: nat, slot: MemorySlot)
    requires UniqueKeys(d) && (key, slot) in d
    ensures var r := Without(d, key);
      && |r| == |d| - 1
      && (forall x :: x in r <==> x in d && x.0 != key)
  {
    if d[0].0 == key {
      assert d == [d[0]] + d[1..];
    } else {
      WithoutKey(d[1..], key, slot);
      assert forall x :: x in d <==> x == d[0] || x in d[1..];
      assert forall x :: x in Without(d, key) <==> x == d[0] || x in Without(d[1..], key);
    }
  }

  lemma {:induction false} WithoutUnique(d: SlotDict, key: nat)
    requires UniqueKeys(d)
    ensures UniqueKeys(Without(d, key))
    ensures forall i :: 0 <= i < |Without(d, key)| ==> Without(d, key)[i].0 in Keys(d)
  {
    hide Keys;
    if d != [] {
      var r := Without(d, key);
      KeysSplit(d);
      if d[0].0 == key {
        forall i | 0 <= i < |r| ensures r[i].0 in Keys(d) { KeyAt(d, i + 1); }
      } else {
        var rest := Without(d[1..], key);
        WithoutUnique(d[1..], key);
        FirstKeyAlone(d);
        forall i, j | 0 <= i < j < |r| ensures r[i].0 != r[j].0 {
          if i == 0 { assert r[j] == rest[j - 1]; } else { assert r[i] == rest[i - 1] && r[j] == rest[j - 1]; }
        }
        forall i | 0 <= i < |r| ensures r[i].0 in Keys(d) {
          if i > 0 { assert r[i] == rest[i - 1]; }
        }
      }
    }
  }

  lemma KeyAt(d: SlotDict, i: nat)
    requires i < |d|
    ensures d[i].0 in Keys(d)
  {
  }

  lemma FirstKeyAlone(d: SlotDict)
    requires d != [] && UniqueKeys(d)
    ensures UniqueKeys(d[1..]) && d[0].0 !in Keys(d[1..])
  {
  }

  lemma KeysSplit(d: SlotDict)
    requires d != []
    ensures Keys(d) == Keys(d[1..]) + {d[0].0}
  {
    forall k | k in Keys(d[1..]) ensures k in Keys(d) {
      var i :| 0 <= i < |d[1..]| && d[1..][i].0 == k;
      assert d[i + 1].0 == k;
    }
  }

  lemma KeysByMembership(d: SlotDict)
    ensures forall k :: k in Keys(d) <==> exists s :: (k, s) in d
  {
    forall k | k in Keys(d) ensures exists s :: (k, s) in d {
      var i :| 0 <= i < |d| && d[i].0 == k;
      assert (k, d[i].1) in d;
    }
    forall k, s | (k, s) in d ensures k in Keys(d) {
      var i :| 0 <= i < |d| && d[i] == (k, s);
      assert d[i].0 == k;
    }
  }

  /** Live and free numbers are disjoint and together are exactly the numbers
      below `next`. */
  ghost predicate Numbered(d: SlotDict, free: set<nat>, next: nat) {
    && UniqueKeys(d)
    && Keys(d) !! free
    && (forall k: nat :: k in Keys(d) || k in free <==> k < next)
    && |d| + |free| == next
  }

  lemma NumberedRemove(d: SlotDict, free: set<nat>, next: nat, key: nat, slot: MemorySlot)
    requires Numbered(d, free, next) && (key, slot) in d
    ensures Numbered(Without(d, key), free + {key}, next)
    ensures forall x :: x in Without(d, key) <==> x in d && x.0 != key
  {
    WithoutKey(d, key, slot);
    WithoutUnique(d, key);
    KeysByMembership(d);
    KeysByMembership(Without(d, key));
    assert key in Keys(d);
  }

  lemma NumberedAdd(d: SlotDict, free: set<nat>, next: nat, key: nat, slot: MemorySlot)
    requires Numbered(d, free, next)
    requires if free == {} then key == next else key in free
    ensures key !in Keys(d)
    ensures Numbered(d + [(key, slot)], free - {key}, if free == {} then next + 1 else next)
  {
    KeysAppend(d, key, slot);
    var e := d + [(key, slot)];
    forall i, j | 0 <= i < j < |e| ensures e[i].0 != e[j].0 {
      if j == |d| { assert d[i].0 in Keys(d); }
    }
  }

  class MemoryManager {
    const ram: array<byte>
    var nextSlotNo: nat
    var freeSlots: set<nat>
    var slots: SlotDict
    ghost var made: set<MemorySlot>
    /** The largest number of slots that were live at once since the last clear. */
    ghost var peak: nat

    /** The numbers in use are accounted for, every live slot sits under its own
        number, and a slot was torn down exactly when it is not live. */
    ghost predicate Valid()
      reads this, made
    {
      && Numbered(slots, freeSlots, nextSlotNo) && nextSlotNo == peak
      && (forall x :: x in slots ==> x.1 in made && Holds(x))
      && (forall s :: s in made ==> s.mgr == this && (!s.destroyed ==> (s.slotNo, s) in slots))
    }

    ghost predicate Holds(x: (nat, MemorySlot))
      reads x.1
    {
      x.0 == x.1.slotNo && !x.1.destroyed && x.1.userspaceAddr + x.1.len <= ram.Length
    }

    /** The live slots as address ranges, in lookup order. */
    ghost function Ranges(): (rs: seq<SlotRange>)
      requires Valid()
      reads this, made
      ensures |rs| == |slots| && SlotsInRam(rs, ram.Length)
      ensures forall i :: 0 <= i < |slots| ==> rs[i] == slots[i].1.Range()
    {
      seq(|slots|, i requires Valid() && 0 <= i < |slots| && slots[i] in slots reads this, made => slots[i].1.Range())
    }

    constructor (ram: array<byte>)
      ensures Valid() && this.ram == ram
      ensures slots == [] && freeSlots == {} && nextSlotNo == 0 && made == {} && peak == 0
    {
      this.ram, nextSlotNo, freeSlots, slots, made, peak := ram, 0, {}, [], {}, 0;
    }

    method AllocateSlotNo() returns (slotNo: nat)
      modifies this
      ensures slots == old(slots) && made == old(made) && peak == old(peak)
      ensures if old(freeSlots) == {} then
                slotNo == old(nextSlotNo) && nextSlotNo == old(nextSlotNo) + 1 && freeSlots == {}
              else
                slotNo in old(freeSlots) && freeSlots == old(freeSlots) - {slotNo} && nextSlotNo == old(nextSlotNo)
    {
      if |freeSlots| != 0 {
        slotNo :| slotNo in freeSlots;
        freeSlots := freeSlots - {slotNo};
        return;
      }
      slotNo := nextSlotNo;
      nextSlotNo := nextSlotNo + 1;
    }

    /** A free number is reused before a new one is made: that is why `nextSlotNo`
        stays the peak number of live slots. */
    method MapExisting(guestPhysAddr: nat, userspaceAddr: nat, len: nat, ro: bool) returns (slot: MemorySlot)
      requires Valid() && userspaceAddr + len <= ram.Length
      modifies this
      ensures Valid() && fresh(slot) && made == old(made) + {slot}
      ensures slot.slotNo !in Keys(old(slots)) && slots == old(slots) + [(slot.slotNo, slot)]
      ensures slot.Range() == SlotRange(guestPhysAddr, userspaceAddr, len) && !slot.destroyed
      ensures Ranges() == old(Ranges()) + [slot.Range()]
      ensures peak == Max(old(peak), |slots|)
    {
      ghost var free, next := freeSlots, nextSlotNo;
      var slotNo := AllocateSlotNo();
      slot := new MemorySlot(this, slotNo, guestPhysAddr, userspaceAddr, len, ro);
      ghost var before := slots;
      slots := slots + [(slotNo, slot)];
      made := made + {slot};
      peak := Max(peak, |slots|);
      NumberedAdd(before, free, next, slotNo, slot);
    }

    /** `nextSlotNo` starts from zero again after every slot was torn down. */
    method Clear()
      requires Valid()
      modifies this, made
      ensures Valid() && slots == [] && freeSlots == {} && nextSlotNo == 0 && peak == 0
      ensures made == old(made) && forall s :: s in made ==> s.destroyed
    {
      var todo := slots;
      for i := 0 to |todo|
        invariant Valid() && made == old(made)
        invariant forall x :: x in todo ==> x.1 in made && x.1.slotNo == x.0
        invariant forall x :: x in slots ==> x in todo[i..]
      {
        assert todo[i] in todo;
        var before := slots;
        todo[i].1.Teardown();
        forall x | x in slots ensures x in todo[i + 1..] {
          WithoutMember(before, todo[i].1.slotNo, x);
          assert x in before && x in todo[i..];
          assert x != todo[i];
          assert todo[i..] == [todo[i]] + todo[i + 1..];
        }
      }
      AnyItem(slots);
      nextSlotNo := 0;
      freeSlots := {};
      peak := 0;
    }

    // ---- Accesses ----------------------------------------------------------

    method ResolveSlot(guestPhysAddr: nat) returns (r: MemorySlot?)
      requires Valid()
      ensures (r == null) == FindSlot(Ranges(), guestPhysAddr).None?
      ensures r != null ==> r in made && (r.slotNo, r) in slots && FindSlot(Ranges(), guestPhysAddr) == Some(r.Range())
    {
      ghost var all := Ranges();
      for i := 0 to |slots|
        invariant FindSlot(all, guestPhysAddr) == FindSlot(all[i..], guestPhysAddr)
      {
        assert slots[i] in slots && all[i..][0] == all[i] && all[i..][1..] == all[i + 1..];
        var slot := slots[i].1;
        if guestPhysAddr >= slot.guestPhysAddr && guestPhysAddr < slot.guestPhysAddr + slot.len {
          return slot;
        }
      }
      r := null;
    }

    /** From an address to the end of its slot. */
    method ResolveExtent(guestPhysAddr: nat) returns (r: Option<MemoryExtent>)
      requires Valid()
      ensures r == match FindSlot(Ranges(), guestPhysAddr)
                   case None => None
                   case Some(s) => Some(MemoryExtent(s.Host(guestPhysAddr), s.gpa + s.len - guestPhysAddr))
    {
      var slot := ResolveSlot(guestPhysAddr);
      if slot == null { return None; }
      var ex := MemoryExtent(slot.userspaceAddr, slot.len).Slice(Some(guestPhysAddr - slot.guestPhysAddr), None);
      assert ex.base >= slot.userspaceAddr;
      assert ex.base + ex.len <= slot.userspaceAddr + slot.len;
      r := Some(ex);
    }

    method ResolveExtents(guestPhysAddr: nat, len: nat) returns (r: Option<seq<MemoryExtent>>)
      requires Valid()
      ensures r == Resolve(Ranges(), guestPhysAddr, len)
    {
      hide Resolve;
      hide Prepend;
      hide FindSlot;
      hide MemoryManager.Valid;
      hide MemoryManager.Ranges;
      ghost var rs := Ranges();
      ghost var goal := Resolve(rs, guestPhysAddr, len);
      var bufs: seq<MemoryExtent> := [];
      var gpa: nat, left: nat := guestPhysAddr, len;
      PrependNothing(goal);
      while left != 0
        invariant goal == Prepend(bufs, Resolve(rs, gpa, left))
      {
        var extent := ResolveExtent(gpa);
        if extent.None? {
          ResolveEnd(rs, gpa, left, bufs);
          return None;
        }
        var L := Min(left, extent.value.len);
        var piece := extent.value.Slice(Some(0), Some(L));
        ResolveStep(rs, gpa, left, bufs, piece, L);
        bufs := bufs + [piece];
        left := left - L;
        gpa := gpa + L;
      }
      ResolveEnd(rs, gpa, left, bufs);
      r := Some(bufs);
    }

    /** Every turn starts a new cursor over the same list, and the cursor leaves
        that list alone when it uses an extent up: see ReadBack for what that
        means across extents. */
    method Read(guestPhysAddr: nat, bufLen: nat) returns (r: ReadResult)
      requires Valid()
      ensures r == ReadBack(Ranges(), ram[..], guestPhysAddr, bufLen)
    {
      hide Repeat;
      hide Resolve;
      hide MemoryManager.Valid;
      hide MemoryManager.Ranges;
      var extents := ResolveExtents(guestPhysAddr, bufLen);
      if extents.None? { return Unmapped; }
      ResolveInRam(Ranges(), guestPhysAddr, bufLen, ram.Length);
      if bufLen > 0 { FirstExtent(Ranges(), guestPhysAddr, bufLen); }
      r := ReadRepeatedly(ram, extents.value, bufLen);
    }

    method Write(guestPhysAddr: nat, buf: seq<byte>) returns (r: Option<nat>)
      requires Valid()
      modifies ram
      ensures ram[..] == Written(Ranges(), old(ram[..]), guestPhysAddr, buf)
      ensures r == if Resolve(Ranges(), guestPhysAddr, |buf|).Some? then Some(|buf|) else None
    {
      var extents := ResolveExtents(guestPhysAddr, |buf|);
      if extents.None? { return None; }
      ResolveInRam(Ranges(), guestPhysAddr, |buf|, ram.Length);
      ResolveIffMapped(Ranges(), guestPhysAddr, |buf|);
      ResolveCovers(Ranges(), guestPhysAddr, |buf|);
      var count := WriteOver(ram, extents.value, buf);
      r := Some(count);
    }
  }

  function Prepend(bufs: seq<MemoryExtent>, rest: Option<seq<MemoryExtent>>): Option<seq<MemoryExtent>> {
    if rest.None? then None else Some(bufs + rest.value)
  }

  lemma PrependNothing(rest: Option<seq<MemoryExtent>>)
    ensures Prepend([], rest) == rest
  {
    if rest.Some? { assert [] + rest.value == rest.value; }
  }

  lemma ResolveEnd(rs: seq<SlotRange>, gpa: nat, left: nat, bufs: seq<MemoryExtent>)
    requires left == 0 || FindSlot(rs, gpa).None?
    ensures Prepend(bufs, Resolve(rs, gpa, left)) == if left == 0 then Some(bufs) else None
  {
    assert bufs + [] == bufs;
  }

  lemma ResolveStep(rs: seq<SlotRange>, gpa: nat, left: nat, bufs: seq<MemoryExtent>, e: MemoryExtent, L: nat)
    requires left != 0 && FindSlot(rs, gpa).Some?
    requires e == ExtentAt(FindSlot(rs, gpa).value, gpa, left) && L == e.len
    ensures Prepend(bufs, Resolve(rs, gpa, left)) == Prepend(bufs + [e], Resolve(rs, gpa + L, left - L))
  {
    var rest := Resolve(rs, gpa + L, left - L);
    if rest.Some? { assert bufs + ([e] + rest.value) == (bufs + [e]) + rest.value; }
  }

  lemma FirstExtent(rs: seq<SlotRange>, gpa: nat, n: nat)
    requires Resolve(rs, gpa, n).Some? && n > 0
    ensures Resolve(rs, gpa, n).value != [] && 0 < Resolve(rs, gpa, n).value[0].len <= n
  {
  }

  /** The loop of `read`. */
  method ReadRepeatedly(ram: array<byte>, es: seq<MemoryExtent>, bufLen: nat) returns (r: ReadResult)
    requires InRam(es, ram.Length) && (bufLen > 0 ==> es != [] && 0 < es[0].len <= bufLen)
    ensures r == if bufLen == 0 then ReadResult.Bytes([])
                 else if es[0].len >= COPY_LIMIT then TooLong
                 else ReadResult.Bytes(Repeat(ram[es[0].base..es[0].base + es[0].len], bufLen))
  {
    hide Repeat;
    var shared := new ExtentList(es);
    var b: seq<byte> := [];
    if bufLen == 0 { return ReadResult.Bytes(b); }
    ghost var first := ram[es[0].base..es[0].base + es[0].len];
    assert b + Repeat(first, bufLen) == Repeat(first, bufLen);
    while |b| < bufLen
      invariant |b| <= bufLen
      invariant |b| < bufLen ==> shared.items == es
      invariant b + Repeat(first, bufLen - |b|) == Repeat(first, bufLen)
      invariant 0 < |b| ==> es[0].len < COPY_LIMIT
    {
      ghost var n := Taken(es, bufLen - |b|);
      var got := ReadOnce(ram, shared, bufLen - |b|);
      if got.Raises? { return TooLong; }
      SameFront(ram[..], es[0].base, es[0].len, n);
      RepeatStep(b, first, bufLen - |b|, n);
      b := b + got.result;
    }
    NothingLeft(b, first);
    r := ReadResult.Bytes(b);
  }

  lemma SameFront(mem: seq<byte>, base: nat, len: nat, n: nat)
    requires n <= len && base + len <= |mem|
    ensures mem[base..base + n] == mem[base..base + len][..n]
  {
  }

  lemma NothingLeft(b: seq<byte>, s: seq<byte>)
    requires |s| > 0
    ensures b + Repeat(s, 0) == b
  {
  }

  /** One turn: a new cursor over the shared list, which stays as it is unless
      the turn ends inside the first extent. */
  method ReadOnce(ram: array<byte>, shared: ExtentList, n: nat) returns (got: Outcome<seq<byte>>)
    requires InRam(shared.items, ram.Length) && shared.items != []
    modifies shared
    ensures var e := old(shared.items)[0];
      && got == (if Min(n, e.len) >= COPY_LIMIT then Raises else Returns(ram[e.base..e.base + Min(n, e.len)]))
      && (e.len <= n ==> shared.items == old(shared.items))
  {
    var cursor := new MultiReadBuffer(ram, shared);
    FirstBytes(ram[..], shared.items, Min(n, shared.items[0].len));
    got := cursor.Read(n);
  }

  lemma FirstBytes(mem: seq<byte>, es: seq<MemoryExtent>, n: nat)
    requires InRam(es, |mem|) && es != [] && n <= es[0].len
    ensures n <= |Addrs(es)| && Within(Addrs(es), |mem|)
    ensures ReadAll(mem, Addrs(es)[..n]) == mem[es[0].base..es[0].base + n]
  {
    AddrsWithin(es, |mem|);
  }

  lemma RepeatStep(b: seq<byte>, s: seq<byte>, left: nat, n: nat)
    requires |s| > 0 && n == Min(left, |s|)
    ensures b + Repeat(s, left) == (b + s[..n]) + Repeat(s, left - n)
  {
    assert s[..|s|] == s;
  }

  method WriteOver(ram: array<byte>, es: seq<MemoryExtent>, buf: seq<byte>) returns (count: nat)
    requires InRam(es, ram.Length)
    modifies ram
    ensures Within(Addrs(es), ram.Length)
    ensures ram[..] == WriteAll(old(ram[..]), Addrs(es), buf) && count == Min(|buf|, |Addrs(es)|)
  {
    var list := new ExtentList(es);
    var cursor := new MultiWriteBuffer(ram, list);
    count := cursor.Write(buf);
  }

  lemma AnyItem(d: SlotDict)
    ensures d == [] || exists x :: x in d
  {
    if d != [] { assert d[0] in d; }
  }

  lemma WithoutMember(d: SlotDict, key: nat, x: (nat, MemorySlot))
    ensures x in Without(d, key) ==> x in d
    ensures UniqueKeys(d) && x in Without(d, key) ==> x.0 != key
  {
    if d != [] && d[0].0 != key { WithoutMember(d[1..], key, x); }
  }

  lemma KeysAppend(d: SlotDict, key: nat, slot: MemorySlot)
    ensures Keys(d + [(key, slot)]) == Keys(d) + {key}
  {
    var e := d + [(key, slot)];
    assert forall i :: 0 <= i < |d| ==> e[i].0 == d[i].0;
    assert e[|d|].0 == key;
  }
}

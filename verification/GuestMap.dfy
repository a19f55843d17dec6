/** The guest's view of memory: an ordered list of slots, looked up first
    match first, and what range resolution, reads and writes mean against it
    (memmgr.py, the pure part of `MemoryManager`). */
module GuestMap {
  import Bits
  import opened Common
  import opened Bytes
  import opened Extents

  datatype SlotRange = SlotRange(gpa: nat, hva: nat, len: nat) {
    predicate Has(a: nat) { gpa <= a < gpa + len }

    predicate HasHost(h: nat) { hva <= h < hva + len }

    function Host(a: nat): nat
      requires Has(a)
    {
      hva + (a - gpa)
    }
  }

  ghost predicate SlotsInRam(rs: seq<SlotRange>, size: nat) {
    forall i :: 0 <= i < |rs| ==> rs[i].hva + rs[i].len <= size
  }

  /** Two slots share no guest address and no host address. */
  predicate Apart(s: SlotRange, t: SlotRange) {
    && (s.gpa + s.len <= t.gpa || t.gpa + t.len <= s.gpa)
    && (s.hva + s.len <= t.hva || t.hva + t.len <= s.hva)
  }

  ghost predicate Disjoint(rs: seq<SlotRange>) {
    forall i, j :: 0 <= i < j < |rs| ==> Apart(rs[i], rs[j])
  }

  lemma SameSlot(rs: seq<SlotRange>, s: SlotRange, t: SlotRange, a: nat)
    requires Disjoint(rs) && s in rs && t in rs
    requires (s.Has(a) && t.Has(a)) || (s.HasHost(a) && t.HasHost(a))
    ensures s == t
  {
    var i :| 0 <= i < |rs| && rs[i] == s;
    var j :| 0 <= j < |rs| && rs[j] == t;
    assert !Apart(s, t) && !Apart(t, s);
  }

  function FindSlot(rs: seq<SlotRange>, a: nat): (r: Option<SlotRange>)
    ensures r.Some? ==> r.value in rs && r.value.Has(a)
  {
    if rs == [] then None
    else if rs[0].Has(a) then Some(rs[0])
    else FindSlot(rs[1..], a)
  }

  lemma {:induction false} FindSlotFinds(rs: seq<SlotRange>, s: SlotRange, a: nat)
    requires s in rs && s.Has(a)
    ensures FindSlot(rs, a).Some?
  {
    if !rs[0].Has(a) { FindSlotFinds(rs[1..], s, a); }
  }

  /** The slot found is the first that has the address. */
  lemma {:induction false} FindsFirst(rs: seq<SlotRange>, a: nat)
    ensures FindSlot(rs, a).None? ==> forall k :: 0 <= k < |rs| ==> !rs[k].Has(a)
    ensures FindSlot(rs, a).Some? ==>
      exists k :: 0 <= k < |rs| && rs[k] == FindSlot(rs, a).value && forall j :: 0 <= j < k ==> !rs[j].Has(a)
  {
    if rs != [] && !rs[0].Has(a) {
      FindsFirst(rs[1..], a);
      if FindSlot(rs, a).Some? {
        var k :| 0 <= k < |rs[1..]| && rs[1..][k] == FindSlot(rs[1..], a).value
                 && forall j :: 0 <= j < k ==> !rs[1..][j].Has(a);
        forall j | 0 <= j < k + 1 ensures !rs[j].Has(a) {
          if j > 0 { assert !rs[1..][j - 1].Has(a); }
        }
        assert rs[k + 1] == FindSlot(rs, a).value;
      }
    }
  }

  /** Flat address translation, one guest address at a time. */
  function Translate(rs: seq<SlotRange>, a: nat): Option<nat> {
    match FindSlot(rs, a)
    case None => None
    case Some(s) => Some(s.Host(a))
  }

  ghost predicate Mapped(rs: seq<SlotRange>, gpa: nat, len: nat) {
    forall a :: gpa <= a < gpa + len ==> FindSlot(rs, a).Some?
  }

  /** The host addresses of a guest range, translated one by one. */
  function Flat(rs: seq<SlotRange>, gpa: nat, len: nat): (at: seq<nat>)
    requires Mapped(rs, gpa, len)
    ensures |at| == len
    ensures forall i :: 0 <= i < len ==> Translate(rs, gpa + i) == Some(at[i])
  {
    seq<nat>(len, i requires 0 <= i < len => Translate(rs, gpa + i).value)
  }

  // ---- Range resolution ---------------------------------------------------

  /** The extent from `gpa` to the end of its slot, cut to `len`. */
  function ExtentAt(s: SlotRange, gpa: nat, len: nat): (e: MemoryExtent)
    requires s.Has(gpa)
    ensures e.len <= len && (len > 0 ==> e.len > 0)
  {
    MemoryExtent(s.Host(gpa), Min(len, s.gpa + s.len - gpa))
  }

  function Resolve(rs: seq<SlotRange>, gpa: nat, len: nat): Option<seq<MemoryExtent>>
    decreases len
  {
    if len == 0 then Some([])
    else
      match FindSlot(rs, gpa)
      case None => None
      case Some(s) =>
        var e := ExtentAt(s, gpa, len);
        match Resolve(rs, gpa + e.len, len - e.len)
        case None => None
        case Some(rest) => Some([e] + rest)
  }

  /** A range resolves exactly when every address in it is in some slot. Slots
      may overlap. */
  lemma {:induction false} ResolveIffMapped(rs: seq<SlotRange>, gpa: nat, len: nat)
    ensures Resolve(rs, gpa, len).Some? <==> Mapped(rs, gpa, len)
    decreases len
  {
    if len != 0 {
      var found := FindSlot(rs, gpa);
      if found.Some? {
        var e := ExtentAt(found.value, gpa, len);
        ResolveIffMapped(rs, gpa + e.len, len - e.len);
        forall a | gpa <= a < gpa + e.len ensures FindSlot(rs, a).Some? {
          FindSlotFinds(rs, found.value, a);
        }
      } else {
        assert FindSlot(rs, gpa).None?;
      }
    }
  }

  ghost predicate InsideSlot(rs: seq<SlotRange>, e: MemoryExtent) {
    exists s :: s in rs && s.hva <= e.base && e.base + e.len <= s.hva + s.len
  }

  /** `h` is where some slot that has `a` keeps it. */
  ghost predicate HostOfSome(rs: seq<SlotRange>, a: nat, h: nat) {
    exists s :: s in rs && s.Has(a) && h == s.Host(a)
  }

  /** Byte `i` of a resolved range is byte `gpa + i` of some slot that has it,
      every extent is non-empty and lies inside one slot's host range. Slots
      may overlap. */
  lemma {:induction false} ResolveCovers(rs: seq<SlotRange>, gpa: nat, len: nat)
    requires Mapped(rs, gpa, len)
    ensures var es := Resolve(rs, gpa, len);
      && es.Some? && |Addrs(es.value)| == len
      && (forall k :: 0 <= k < |es.value| ==> es.value[k].len > 0 && InsideSlot(rs, es.value[k]))
      && (forall i :: 0 <= i < len ==> HostOfSome(rs, gpa + i, Addrs(es.value)[i]))
    decreases len
  {
    ResolveIffMapped(rs, gpa, len);
    if len != 0 {
      var s := FindSlot(rs, gpa).value;
      var e := ExtentAt(s, gpa, len);
      var es := Resolve(rs, gpa, len).value;
      var rest := Resolve(rs, gpa + e.len, len - e.len).value;
      ResolveCovers(rs, gpa + e.len, len - e.len);
      assert es[0] == e && es[1..] == rest;
      assert Addrs(es) == e.Addrs() + Addrs(rest);
      forall i | 0 <= i < len ensures HostOfSome(rs, gpa + i, Addrs(es)[i]) {
        if i < e.len {
          assert s in rs && s.Has(gpa + i) && Addrs(es)[i] == s.Host(gpa + i);
        } else {
          assert HostOfSome(rs, gpa + e.len + (i - e.len), Addrs(rest)[i - e.len]);
        }
      }
    }
  }

  lemma {:induction false} ResolveInRam(rs: seq<SlotRange>, gpa: nat, len: nat, size: nat)
    requires SlotsInRam(rs, size)
    ensures Resolve(rs, gpa, len).Some? ==>
      InRam(Resolve(rs, gpa, len).value, size) && Within(Addrs(Resolve(rs, gpa, len).value), size)
    decreases len
  {
    if len != 0 && Resolve(rs, gpa, len).Some? {
      var s := FindSlot(rs, gpa).value;
      var e := ExtentAt(s, gpa, len);
      ResolveInRam(rs, gpa + e.len, len - e.len, size);
      AddrsWithin(Resolve(rs, gpa, len).value, size);
    }
  }

  /** With disjoint slots, resolution is flat translation. */
  lemma ResolveIsFlat(rs: seq<SlotRange>, gpa: nat, len: nat)
    requires Mapped(rs, gpa, len) && Disjoint(rs)
    ensures Resolve(rs, gpa, len).Some?
    ensures Addrs(Resolve(rs, gpa, len).value) == Flat(rs, gpa, len)
  {
    ResolveCovers(rs, gpa, len);
    var at := Addrs(Resolve(rs, gpa, len).value);
    forall i | 0 <= i < len ensures at[i] == Flat(rs, gpa, len)[i] {
      assert HostOfSome(rs, gpa + i, at[i]);
      var s :| s in rs && s.Has(gpa + i) && at[i] == s.Host(gpa + i);
      SameSlot(rs, s, FindSlot(rs, gpa + i).value, gpa + i);
    }
  }

  lemma TranslateInjective(rs: seq<SlotRange>, a: nat, b: nat)
    requires Disjoint(rs) && Translate(rs, a).Some?
    ensures Translate(rs, a) == Translate(rs, b) ==> a == b
  {
    if Translate(rs, a) == Translate(rs, b) {
      var s, t := FindSlot(rs, a).value, FindSlot(rs, b).value;
      SameSlot(rs, s, t, s.Host(a));
    }
  }

  lemma FlatDistinct(rs: seq<SlotRange>, gpa: nat, len: nat)
    requires Mapped(rs, gpa, len) && Disjoint(rs)
    ensures Distinct(Flat(rs, gpa, len))
  {
    forall i, j | 0 <= i < j < len ensures Flat(rs, gpa, len)[i] != Flat(rs, gpa, len)[j] {
      TranslateInjective(rs, gpa + i, gpa + j);
    }
  }

  // ---- MemoryManager.write ------------------------------------------------

  /** Memory after a write of `data` to a guest range; nothing happens when part
      of the range is unmapped. */
  function Written(rs: seq<SlotRange>, mem: seq<byte>, gpa: nat, data: seq<byte>): (mem': seq<byte>)
    requires SlotsInRam(rs, |mem|)
    ensures |mem'| == |mem|
  {
    match Resolve(rs, gpa, |data|)
    case None => mem
    case Some(es) =>
      ResolveInRam(rs, gpa, |data|, |mem|);
      WriteAll(mem, Addrs(es), data)
  }

  /** A write to a range of which any address is unmapped changes nothing. */
  lemma WrittenNowhere(rs: seq<SlotRange>, mem: seq<byte>, gpa: nat, data: seq<byte>)
    requires SlotsInRam(rs, |mem|) && !Mapped(rs, gpa, |data|)
    ensures Written(rs, mem, gpa, data) == mem
  {
    ResolveIffMapped(rs, gpa, |data|);
  }

  /** A write to a mapped range, across any number of slots, sets exactly the
      guest bytes of the range. */
  lemma WrittenIsFlat(rs: seq<SlotRange>, mem: seq<byte>, gpa: nat, data: seq<byte>, a: nat)
    requires SlotsInRam(rs, |mem|) && Disjoint(rs) && Mapped(rs, gpa, |data|)
    requires Translate(rs, a).Some?
    ensures Translate(rs, a).value < |mem|
    ensures Written(rs, mem, gpa, data)[Translate(rs, a).value]
         == if gpa <= a < gpa + |data| then data[a - gpa] else mem[Translate(rs, a).value]
  {
    hide WriteAll;
    hide Resolve;
    hide Addrs;
    var at := Flat(rs, gpa, |data|);
    ResolveIsFlat(rs, gpa, |data|);
    ResolveInRam(rs, gpa, |data|, |mem|);
    FlatDistinct(rs, gpa, |data|);
    if gpa <= a < gpa + |data| {
      WriteAllAt(mem, at, data, a - gpa);
    } else {
      forall i | 0 <= i < |at| ensures at[i] != Translate(rs, a).value {
        TranslateInjective(rs, gpa + i, a);
      }
      WriteAllFrame(mem, at, data, Translate(rs, a).value);
    }
  }

  // ---- MemoryManager.read -------------------------------------------------

  /** The first `n` bytes of `s` repeated for ever. */
  function Repeat(s: seq<byte>, n: nat): (r: seq<byte>)
    requires n > 0 ==> |s| > 0
    ensures |r| == n
    decreases n
  {
    if n <= |s| then s[..n] else s + Repeat(s, n - |s|)
  }

  datatype ReadResult = Unmapped | TooLong | Bytes(bytes: seq<byte>)

  /** What `read` returns: the first extent of the range over and over. */
  function ReadBack(rs: seq<SlotRange>, mem: seq<byte>, gpa: nat, n: nat): (r: ReadResult)
    requires SlotsInRam(rs, |mem|)
    ensures r.Bytes? ==> |r.bytes| == n
  {
    match Resolve(rs, gpa, n)
    case None => Unmapped
    case Some(es) =>
      ResolveInRam(rs, gpa, n, |mem|);
      if n == 0 then Bytes([])
      else if es[0].len >= COPY_LIMIT then TooLong
      else Bytes(Repeat(mem[es[0].base..es[0].base + es[0].len], n))
  }

  lemma {:induction false} RepeatAt(s: seq<byte>, n: nat, i: nat)
    requires |s| > 0 && i < n
    ensures Repeat(s, n)[i] == s[i % |s|]
    decreases n
  {
    if n > |s| && i >= |s| {
      RepeatAt(s, n - |s|, i - |s|);
      Bits.ModStep(i, |s|);
    } else {
      Bits.ModSmall(i, |s|);
    }
  }

  /** The flat contents of a mapped guest range. */
  function FlatBytes(rs: seq<SlotRange>, mem: seq<byte>, gpa: nat, n: nat): (r: seq<byte>)
    requires SlotsInRam(rs, |mem|) && Mapped(rs, gpa, n)
    ensures |r| == n
  {
    ReadAll(mem, Flat(rs, gpa, n))
  }

  /** The range ends inside the slot it starts in. */
  predicate OneSlot(rs: seq<SlotRange>, gpa: nat, n: nat) {
    n == 0 || (FindSlot(rs, gpa).Some? && gpa + n <= FindSlot(rs, gpa).value.gpa + FindSlot(rs, gpa).value.len)
  }

  predicate Copyable(rs: seq<SlotRange>, gpa: nat, n: nat) {
    n > 0 ==> FindSlot(rs, gpa).Some? && ExtentAt(FindSlot(rs, gpa).value, gpa, n).len < COPY_LIMIT
  }

  lemma ReadBackInOneSlot(rs: seq<SlotRange>, mem: seq<byte>, gpa: nat, n: nat)
    requires SlotsInRam(rs, |mem|) && Disjoint(rs) && Mapped(rs, gpa, n)
    requires Copyable(rs, gpa, n) && OneSlot(rs, gpa, n)
    ensures ReadBack(rs, mem, gpa, n) == Bytes(FlatBytes(rs, mem, gpa, n))
  {
    if n > 0 {
      var s := FindSlot(rs, gpa).value;
      var at := Flat(rs, gpa, n);
      var e := ExtentAt(s, gpa, n);
      assert Resolve(rs, gpa + e.len, n - e.len) == Some([]);
      assert Resolve(rs, gpa, n) == Some([e] + []);
      forall i | 0 <= i < n ensures at[i] == s.Host(gpa) + i {
        FindSlotFinds(rs, s, gpa + i);
        SameSlot(rs, s, FindSlot(rs, gpa + i).value, gpa + i);
      }
    }
  }

  /** `read` gives the flat contents, whatever memory holds, exactly when the
      range lies in one slot. */
  lemma ReadIsFlatIffOneSlot(rs: seq<SlotRange>, size: nat, gpa: nat, n: nat)
    requires SlotsInRam(rs, size) && Disjoint(rs) && Mapped(rs, gpa, n) && Copyable(rs, gpa, n)
    ensures (forall mem: seq<byte> :: |mem| == size ==>
               ReadBack(rs, mem, gpa, n) == Bytes(FlatBytes(rs, mem, gpa, n)))
       <==> OneSlot(rs, gpa, n)
  {
    if OneSlot(rs, gpa, n) {
      forall mem: seq<byte> | |mem| == size
        ensures ReadBack(rs, mem, gpa, n) == Bytes(FlatBytes(rs, mem, gpa, n))
      {
        ReadBackInOneSlot(rs, mem, gpa, n);
      }
    } else {
      var mem := ReadsFirstExtentAgain(rs, size, gpa, n);
    }
  }

  /** The first address behind the first extent is kept elsewhere. */
  lemma BehindFirstExtent(rs: seq<SlotRange>, size: nat, gpa: nat, n: nat)
    requires SlotsInRam(rs, size) && Disjoint(rs) && Mapped(rs, gpa, n) && !OneSlot(rs, gpa, n)
    ensures var s := FindSlot(rs, gpa).value;
      var e := ExtentAt(s, gpa, n);
      && 0 < e.len < n && Resolve(rs, gpa, n).Some?
      && Resolve(rs, gpa, n).value != [] && Resolve(rs, gpa, n).value[0] == e
      && Flat(rs, gpa, n)[e.len] < size && Flat(rs, gpa, n)[e.len] != e.base && e.base + e.len <= size
  {
    hide Disjoint;
    hide FindSlot;
    var s := FindSlot(rs, gpa).value;
    var e := ExtentAt(s, gpa, n);
    var at := Flat(rs, gpa, n);
    assert Translate(rs, gpa + e.len) == Some(at[e.len]) && Translate(rs, gpa) == Some(e.base);
    ResolveIffMapped(rs, gpa, n);
    TranslateInjective(rs, gpa + e.len, gpa);
  }

  lemma RepeatsFirst(bytes: seq<byte>, n: nat)
    requires 0 < |bytes| < n
    ensures Repeat(bytes, n)[|bytes|] == bytes[0]
  {
    RepeatAt(bytes, n, |bytes|);
    Bits.DivModUnique(|bytes|, |bytes|, 1, 0);
  }

  /** A memory on which a range that leaves its first slot is misread. */
  lemma ReadsFirstExtentAgain(rs: seq<SlotRange>, size: nat, gpa: nat, n: nat) returns (mem: seq<byte>)
    requires SlotsInRam(rs, size) && Disjoint(rs) && Mapped(rs, gpa, n) && Copyable(rs, gpa, n)
    requires !OneSlot(rs, gpa, n)
    ensures |mem| == size && ReadBack(rs, mem, gpa, n) != Bytes(FlatBytes(rs, mem, gpa, n))
  {
    hide Resolve;
    hide Repeat;
    hide Flat;
    hide Disjoint;
    hide FindSlot;
    hide ReadBack;
    hide FlatBytes;
    BehindFirstExtent(rs, size, gpa, n);
    var e := ExtentAt(FindSlot(rs, gpa).value, gpa, n);
    var h := Flat(rs, gpa, n)[e.len];
    mem := Zeros(size)[h := 1];
    ReadBackIs(rs, mem, gpa, n, e);
    ByteIs(rs, mem, gpa, n, e.len);
    RepeatsFirst(mem[e.base..e.base + e.len], n);
  }

  lemma ReadBackIs(rs: seq<SlotRange>, mem: seq<byte>, gpa: nat, n: nat, e: MemoryExtent)
    requires SlotsInRam(rs, |mem|) && 0 < n && 0 < e.len && e.base + e.len <= |mem|
    requires Resolve(rs, gpa, n).Some? && Resolve(rs, gpa, n).value != [] && Resolve(rs, gpa, n).value[0] == e
    ensures ReadBack(rs, mem, gpa, n)
         == if e.len >= COPY_LIMIT then TooLong else Bytes(Repeat(mem[e.base..e.base + e.len], n))
  {
    hide Resolve;
    hide Repeat;
  }

  lemma ByteIs(rs: seq<SlotRange>, mem: seq<byte>, gpa: nat, n: nat, i: nat)
    requires SlotsInRam(rs, |mem|) && Mapped(rs, gpa, n) && i < n && Flat(rs, gpa, n)[i] < |mem|
    ensures FlatBytes(rs, mem, gpa, n)[i] == mem[Flat(rs, gpa, n)[i]]
  {
    hide Flat;
  }

  /** What one `write` puts into a slot, `read` gets back. */
  lemma ReadAfterWrite(rs: seq<SlotRange>, mem: seq<byte>, gpa: nat, data: seq<byte>, from: nat, n: nat)
    requires SlotsInRam(rs, |mem|) && Disjoint(rs) && Mapped(rs, gpa, |data|)
    requires from + n <= |data|
    requires OneSlot(rs, gpa + from, n) && Copyable(rs, gpa + from, n)
    ensures ReadBack(rs, Written(rs, mem, gpa, data), gpa + from, n) == Bytes(data[from..from + n])
  {
    var mem' := Written(rs, mem, gpa, data);
    ReadBackInOneSlot(rs, mem', gpa + from, n);
    WrittenBytes(rs, mem, gpa, data, from, n);
  }

  /** Host bytes that no address of the range translates to stay. */
  lemma WrittenFrame(rs: seq<SlotRange>, mem: seq<byte>, gpa: nat, data: seq<byte>, h: nat)
    requires SlotsInRam(rs, |mem|) && Disjoint(rs) && Mapped(rs, gpa, |data|) && h < |mem|
    requires forall a: nat :: gpa <= a < gpa + |data| ==> Translate(rs, a) != Some(h)
    ensures Written(rs, mem, gpa, data)[h] == mem[h]
  {
    var at := Flat(rs, gpa, |data|);
    ResolveIsFlat(rs, gpa, |data|);
    ResolveInRam(rs, gpa, |data|, |mem|);
    forall i | 0 <= i < |at| ensures at[i] != h {
      assert Translate(rs, gpa + i) == Some(at[i]);
    }
    WriteAllFrame(mem, at, data, h);
  }

  /** Bytes outside the written range stay. */
  lemma OtherBytes(rs: seq<SlotRange>, mem: seq<byte>, gpa: nat, data: seq<byte>, a: nat, n: nat)
    requires SlotsInRam(rs, |mem|) && Disjoint(rs) && Mapped(rs, gpa, |data|) && Mapped(rs, a, n)
    requires gpa + |data| <= a || a + n <= gpa
    ensures FlatBytes(rs, Written(rs, mem, gpa, data), a, n) == FlatBytes(rs, mem, a, n)
  {
    var at, mem' := Flat(rs, a, n), Written(rs, mem, gpa, data);
    forall i | 0 <= i < n ensures mem'[at[i]] == mem[at[i]] {
      WrittenIsFlat(rs, mem, gpa, data, a + i);
    }
  }

  lemma WrittenBytes(rs: seq<SlotRange>, mem: seq<byte>, gpa: nat, data: seq<byte>, from: nat, n: nat)
    requires SlotsInRam(rs, |mem|) && Disjoint(rs) && Mapped(rs, gpa, |data|)
    requires from + n <= |data|
    ensures Mapped(rs, gpa + from, n)
    ensures FlatBytes(rs, Written(rs, mem, gpa, data), gpa + from, n) == data[from..from + n]
  {
    var r := FlatBytes(rs, Written(rs, mem, gpa, data), gpa + from, n);
    forall i | 0 <= i < n ensures r[i] == data[from + i] {
      WrittenIsFlat(rs, mem, gpa, data, gpa + from + i);
    }
  }
}

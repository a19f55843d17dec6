/** The stateful cursors over extent lists (memmgr.py, `MultiReadBuffer` and
    `MultiWriteBuffer`). A Python list is an object: a cursor that is given one
    shares it with the caller, overwrites its first element in place while an
    extent is partly consumed, and only moves to a list of its own when an
    extent is used up. */
module Buffers {
  import opened Common
  import opened Bytes
  import opened Extents

  /** A Python list of extents. */
  class ExtentList {
    var items: seq<MemoryExtent>

    constructor (items: seq<MemoryExtent>)
      ensures this.items == items
    {
      this.items := items;
    }
  }

  /** Both `remaining` properties. */
  method TotalLength(es: seq<MemoryExtent>) returns (total: nat)
    ensures total == |Addrs(es)|
  {
    total := 0;
    for i := 0 to |es|
      invariant total == |Addrs(es[..i])|
    {
      total := total + es[i].len;
      AddrsConcat(es[..i], [es[i]]);
      assert es[..i + 1] == es[..i] + [es[i]];
    }
    assert es[..|es|] == es;
  }

  /** What one read of up to `n` bytes takes: never more than one extent. */
  function Taken(es: seq<MemoryExtent>, n: nat): nat {
    if es == [] then 0 else Min(n, es[0].len)
  }

  /** The extents left after one read. */
  function AfterRead(es: seq<MemoryExtent>, n: nat): seq<MemoryExtent> {
    if es == [] then es
    else if es[0].len <= n then es[1..]
    else [es[0].Slice(Some(n), None)] + es[1..]
  }

  lemma AfterReadAddrs(es: seq<MemoryExtent>, n: nat)
    ensures Taken(es, n) <= |Addrs(es)|
    ensures Addrs(AfterRead(es, n)) == Addrs(es)[Taken(es, n)..]
  {
    if es != [] { AdvanceAddrs(es, Taken(es, n)); }
  }

  lemma AfterReadInRam(es: seq<MemoryExtent>, n: nat, size: nat)
    requires InRam(es, size)
    ensures InRam(AfterRead(es, n), size)
  {
    if es != [] && n < es[0].len {
      var s := es[0].Slice(Some(n), None);
      assert s.base + s.len == es[0].base + es[0].len;
    }
  }

  class MultiReadBuffer {
    const ram: array<byte>
    var list: ExtentList

    ghost predicate Valid()
      reads this, list
    {
      InRam(list.items, ram.Length)
    }

    constructor (ram: array<byte>, list: ExtentList)
      ensures this.ram == ram && this.list == list
    {
      this.ram := ram;
      this.list := list;
    }

    method Remaining() returns (total: nat)
      ensures total == |Addrs(list.items)|
    {
      total := TotalLength(list.items);
    }

    /** Raises, changing nothing, when it would copy COPY_LIMIT bytes or more. */
    method Read(n: nat) returns (r: Outcome<seq<byte>>)
      requires Valid()
      modifies this, list
      ensures Valid()
      ensures var es, k := old(list.items), Taken(old(list.items), n);
        && k <= |Addrs(es)| && Within(Addrs(es), ram.Length)
        && (k >= COPY_LIMIT ==> r == Raises && list == old(list) && list.items == es)
        && (k < COPY_LIMIT ==> r == Returns(ReadAll(ram[..], Addrs(es)[..k])) && list.items == AfterRead(es, n))
        // The caller's list keeps an extent that was used up ...
        && (es != [] && k < COPY_LIMIT && es[0].len <= n ==> fresh(list) && old(list).items == es)
        // ... but sees one that was only started.
        && (es != [] && k < COPY_LIMIT && n < es[0].len ==> list == old(list))
        && (es == [] ==> list == old(list))
    {
      AddrsWithin(list.items, ram.Length);
      if |list.items| == 0 { return Returns([]); }
      var extent := list.items[0];
      var n := Min(n, extent.len);
      var b := CopyFrom(ram, extent.Slice(None, Some(n)));
      if b.Raises? { return Raises; }
      assert b.result == ReadAll(ram[..], Addrs(list.items)[..n]);
      if extent.len - n == 0 {
        list := new ExtentList(list.items[1..]);
      } else {
        list.items := list.items[0 := list.items[0].Slice(Some(n), None)];
      }
      r := b;
    }
  }

  class MultiWriteBuffer {
    const ram: array<byte>
    var list: ExtentList

    ghost predicate Valid()
      reads this, list
    {
      InRam(list.items, ram.Length)
    }

    constructor (ram: array<byte>, list: ExtentList)
      ensures this.ram == ram && this.list == list
    {
      this.ram := ram;
      this.list := list;
    }

    method Remaining() returns (total: nat)
      ensures total == |Addrs(list.items)|
    {
      total := TotalLength(list.items);
    }

    /** Scatters `data` over the extents in order, as far as they reach, and
        leaves the cursor behind the last byte written. */
    method Write(data: seq<byte>) returns (count: nat)
      requires Valid()
      modifies this, list, ram
      ensures Valid() && (list == old(list) || fresh(list))
      ensures var at := Addrs(old(list.items));
        && Within(at, ram.Length)
        && ram[..] == WriteAll(old(ram[..]), at, data)
        && count == Min(|data|, |at|)
        && Addrs(list.items) == at[count..]
    {
      hide Addrs;
      hide WriteAll;
      ghost var at := Addrs(list.items);
      AddrsWithin(list.items, ram.Length);
      ghost var mem := ram[..];
      var b := data;
      count := 0;
      NothingYet(mem, at, data);
      while |b| != 0
        invariant Valid() && (list == old(list) || fresh(list))
        invariant count <= |at| && count <= |data| && b == data[count..]
        invariant Addrs(list.items) == at[count..]
        invariant ram[..] == WriteAll(mem, at[..count], data[..count])
        decreases |b| + |list.items|
      {
        if |list.items| == 0 {
          NoExtents(list.items);
          WriteDone(mem, at, data, count);
          return;
        }
        var extent := list.items[0];
        var n := Min(|b|, extent.len);
        WriteStep(mem, at, data, count, list.items, n);
        CopyTo(ram, extent, b[..n]);
        count := count + n;
        b := b[n..];
        if extent.len - n == 0 {
          list := new ExtentList(list.items[1..]);
        } else {
          list.items := list.items[0 := list.items[0].Slice(Some(n), None)];
        }
      }
      WriteDone(mem, at, data, count);
    }
  }

  lemma NothingYet(mem: seq<byte>, at: seq<nat>, data: seq<byte>)
    requires Within(at, |mem|)
    ensures WriteAll(mem, at[..0], data[..0]) == mem
  {
  }

  lemma NoExtents(es: seq<MemoryExtent>)
    requires |es| == 0
    ensures Addrs(es) == []
  {
  }

  /** Filling `n` bytes of the front extent continues the flat write, and the
      cursor moves on by `n` addresses. */
  lemma WriteStep(mem: seq<byte>, at: seq<nat>, data: seq<byte>, count: nat, es: seq<MemoryExtent>, n: nat)
    requires Within(at, |mem|) && count <= |at| && count < |data|
    requires es != [] && InRam(es, |mem|) && Addrs(es) == at[count..]
    requires n == Min(|data| - count, es[0].len)
    ensures count + n <= |at|
    ensures WriteAll(WriteAll(mem, at[..count], data[..count]), es[0].Addrs(), data[count..][..n])
         == WriteAll(mem, at[..count + n], data[..count + n])
    ensures var next := if n == es[0].len then es[1..] else es[0 := es[0].Slice(Some(n), None)];
      Addrs(next) == at[count + n..] && InRam(next, |mem|)
  {
    AdvanceAddrs(es, n);
    DropDrop(at, count, n);
    assert es[0 := es[0].Slice(Some(n), None)] == [es[0].Slice(Some(n), None)] + es[1..];
    WriteFront(mem, at, data, count, es[0].Addrs(), n);
  }

  lemma WriteFront(mem: seq<byte>, at: seq<nat>, data: seq<byte>, count: nat, front: seq<nat>, n: nat)
    requires Within(at, |mem|) && Within(front, |mem|) && count <= |at| && count + n <= |data|
    requires n <= |front| && front <= at[count..]
    ensures count + n <= |at|
    ensures WriteAll(WriteAll(mem, at[..count], data[..count]), front, data[count..][..n])
         == WriteAll(mem, at[..count + n], data[..count + n])
  {
    var d := data[count..][..n];
    assert at[..count + n] == at[..count] + front[..n];
    assert data[..count + n] == data[..count] + d;
    WriteAllConcat(mem, at[..count], front[..n], data[..count], d);
    WriteAllPrefix(WriteAll(mem, at[..count], data[..count]), front, d, n);
  }

  lemma WriteDone(mem: seq<byte>, at: seq<nat>, data: seq<byte>, count: nat)
    requires Within(at, |mem|) && count <= |at| && count <= |data|
    requires count == |at| || count == |data|
    ensures WriteAll(mem, at[..count], data[..count]) == WriteAll(mem, at, data)
  {
    WriteAllPrefix(mem, at, data[..count], count);
    if count == |at| {
      CutData(mem, at, data, count);
    } else {
      assert data[..count] == data;
    }
  }

  /** Bytes beyond the last address are ignored. */
  lemma {:induction false} CutData(mem: seq<byte>, addrs: seq<nat>, data: seq<byte>, n: nat)
    requires Within(addrs, |mem|) && |addrs| <= n <= |data|
    ensures WriteAll(mem, addrs, data[..n]) == WriteAll(mem, addrs, data)
    decreases |addrs|
  {
    if addrs != [] {
      assert data[..n][1..] == data[1..][..n - 1];
      CutData(mem[addrs[0] := data[0]], addrs[1..], data[1..], n - 1);
    }
  }

  // ---- Splitting a write ---------------------------------------------------

  /** The chunks written one by one, each where the one before it ended; also
      the total of the counts returned. */
  function WriteChunks(mem: seq<byte>, at: seq<nat>, chunks: seq<seq<byte>>): (r: (seq<byte>, nat))
    requires Within(at, |mem|)
    decreases |chunks|
  {
    if chunks == [] then (mem, 0)
    else
      var count := Min(|chunks[0]|, |at|);
      var rest := WriteChunks(WriteAll(mem, at, chunks[0]), at[count..], chunks[1..]);
      (rest.0, count + rest.1)
  }

  function Flatten(chunks: seq<seq<byte>>): seq<byte> {
    if chunks == [] then [] else chunks[0] + Flatten(chunks[1..])
  }

  /** Any way of cutting the data into writes leaves memory, and the total
      count, as one write of all of it. */
  lemma {:induction false} ChunksAreOneWrite(mem: seq<byte>, at: seq<nat>, chunks: seq<seq<byte>>)
    requires Within(at, |mem|)
    ensures WriteChunks(mem, at, chunks)
         == (WriteAll(mem, at, Flatten(chunks)), Min(|Flatten(chunks)|, |at|))
    decreases |chunks|
  {
    if chunks != [] {
      var c := chunks[0];
      ChunksAreOneWrite(WriteAll(mem, at, c), at[Min(|c|, |at|)..], chunks[1..]);
      WriteSplit(mem, at, c, Flatten(chunks[1..]));
    }
  }

  lemma {:induction false} WriteSplit(mem: seq<byte>, at: seq<nat>, x: seq<byte>, y: seq<byte>)
    requires Within(at, |mem|)
    ensures WriteAll(mem, at, x + y) == WriteAll(WriteAll(mem, at, x), at[Min(|x|, |at|)..], y)
    decreases |at|
  {
    if x == [] {
      assert x + y == y;
    } else if at != [] {
      assert (x + y)[1..] == x[1..] + y;
      assert at[1..][Min(|x| - 1, |at| - 1)..] == at[Min(|x|, |at|)..];
      WriteSplit(mem[at[0] := x[0]], at[1..], x[1..], y);
    }
  }
}

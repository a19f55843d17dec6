/** Extents of host memory and the flat reading of a list of extents
    (memmgr.py). Host memory is one array of bytes; a list of extents stands
    for the sequence of host addresses it walks through. */
module Extents {
  import opened Common
  import opened Bytes

  /** memmgr.py refuses to copy out an extent of this size or more. */
  const COPY_LIMIT: nat := 16 * 1024 * 1024

  /** The host addresses `base`, `base + 1`, ... */
  function Span(base: nat, n: nat): (s: seq<nat>)
    ensures |s| == n
    ensures forall i :: 0 <= i < n ==> s[i] == base + i
  {
    seq(n, i => base + i)
  }

  datatype MemoryExtent = MemoryExtent(base: nat, len: nat) {
    /** `extent[start:stop]` */
    function Slice(start: Option<nat>, stop: Option<int>): MemoryExtent {
      var newBase := if start.Some? then base + start.value else base;
      var newLen := Min(len, len - (newBase - base));
      var cut := match stop
        case None => newLen
        case Some(e) => if e < 0 then newLen - (-e) else e - (if start.Some? then start.value else 0);
      MemoryExtent(newBase, Max(Min(cut, len - (newBase - base)), 0))
    }

    function Addrs(): seq<nat> { Span(base, len) }
  }

  /** Where a Python slice bound falls in a sequence of length `n`. */
  function PythonBound(i: int, n: nat): (b: nat)
    ensures b <= n
  {
    if i < 0 then Max(n + i, 0) else Min(i, n)
  }

  function PythonSlice<T>(s: seq<T>, start: int, stop: int): seq<T> {
    var p, q := PythonBound(start, |s|), PythonBound(stop, |s|);
    if p <= q then s[p..q] else []
  }

  /** Slicing an extent selects exactly the addresses that slicing the list of
      its addresses would, negative and oversized bounds included. */
  lemma SliceIsPythonSlice(e: MemoryExtent, start: Option<nat>, stop: Option<int>)
    ensures e.Slice(start, stop).Addrs()
         == PythonSlice(e.Addrs(), if start.Some? then start.value else 0,
                        if stop.Some? then stop.value else e.len)
  {
  }

  // ---- Lists of extents as address sequences ------------------------------

  function Addrs(es: seq<MemoryExtent>): seq<nat> {
    if es == [] then [] else es[0].Addrs() + Addrs(es[1..])
  }

  ghost predicate Within(addrs: seq<nat>, size: nat) {
    forall i :: 0 <= i < |addrs| ==> addrs[i] < size
  }

  ghost predicate InRam(es: seq<MemoryExtent>, size: nat) {
    forall i :: 0 <= i < |es| ==> es[i].base + es[i].len <= size
  }

  ghost predicate Distinct(addrs: seq<nat>) {
    forall i, j :: 0 <= i < j < |addrs| ==> addrs[i] != addrs[j]
  }

  lemma {:induction false} AddrsWithin(es: seq<MemoryExtent>, size: nat)
    requires InRam(es, size)
    ensures Within(Addrs(es), size)
  {
    if es != [] { AddrsWithin(es[1..], size); }
  }

  lemma ConcatAssoc<T>(x: seq<T>, y: seq<T>, z: seq<T>)
    ensures x + (y + z) == (x + y) + z
  {
  }

  lemma DropDrop<T>(s: seq<T>, m: nat, n: nat)
    requires m + n <= |s|
    ensures s[m..][n..] == s[m + n..]
  {
  }

  lemma DropConcat<T>(x: seq<T>, y: seq<T>, n: nat)
    requires n <= |x|
    ensures (x + y)[n..] == x[n..] + y
    ensures n == |x| ==> (x + y)[n..] == y
  {
  }

  lemma {:induction false} AddrsConcat(a: seq<MemoryExtent>, b: seq<MemoryExtent>)
    ensures Addrs(a + b) == Addrs(a) + Addrs(b)
  {
    if a == [] {
      assert a + b == b;
    } else {
      AddrsConcat(a[1..], b);
      assert (a + b)[0] == a[0] && (a + b)[1..] == a[1..] + b;
      ConcatAssoc(a[0].Addrs(), Addrs(a[1..]), Addrs(b));
    }
  }

  /** Taking `n` bytes off the front extent takes `n` addresses off the front. */
  lemma AdvanceAddrs(es: seq<MemoryExtent>, n: nat)
    requires es != [] && n <= es[0].len
    ensures Addrs(es)[n..] == Addrs([es[0].Slice(Some(n), None)] + es[1..])
    ensures n == es[0].len ==> Addrs(es)[n..] == Addrs(es[1..])
  {
    var cut := es[0].Slice(Some(n), None);
    assert ([cut] + es[1..])[1..] == es[1..];
    assert es[0].Addrs()[n..] == cut.Addrs();
    DropConcat(es[0].Addrs(), Addrs(es[1..]), n);
  }

  // ---- Flat reads and writes ----------------------------------------------

  function ReadAll(mem: seq<byte>, addrs: seq<nat>): (r: seq<byte>)
    requires Within(addrs, |mem|)
    ensures |r| == |addrs|
    ensures forall i :: 0 <= i < |r| ==> r[i] == mem[addrs[i]]
  {
    seq(|addrs|, i requires 0 <= i < |addrs| => mem[addrs[i]])
  }

  /** Store bytes at the given addresses one after the other, until either list
      runs out. */
  function WriteAll(mem: seq<byte>, addrs: seq<nat>, data: seq<byte>): (r: seq<byte>)
    requires Within(addrs, |mem|)
    ensures |r| == |mem|
    decreases |addrs|
  {
    if addrs == [] || data == [] then mem
    else WriteAll(mem[addrs[0] := data[0]], addrs[1..], data[1..])
  }

  lemma {:induction false} WriteAllConcat(mem: seq<byte>, a: seq<nat>, b: seq<nat>, x: seq<byte>, y: seq<byte>)
    requires Within(a, |mem|) && Within(b, |mem|) && Within(a + b, |mem|)
    requires |a| == |x|
    ensures WriteAll(mem, a + b, x + y) == WriteAll(WriteAll(mem, a, x), b, y)
    decreases |a|
  {
    if a == [] {
      assert a + b == b && x + y == y;
    } else {
      assert (a + b)[1..] == a[1..] + b && (x + y)[1..] == x[1..] + y;
      WriteAllConcat(mem[a[0] := x[0]], a[1..], b, x[1..], y);
    }
  }

  /** Only as many addresses as there are bytes matter. */
  lemma {:induction false} WriteAllPrefix(mem: seq<byte>, addrs: seq<nat>, data: seq<byte>, n: nat)
    requires Within(addrs, |mem|) && Min(|addrs|, |data|) <= n <= |addrs|
    ensures WriteAll(mem, addrs[..n], data) == WriteAll(mem, addrs, data)
    decreases |addrs|
  {
    if addrs != [] && data != [] {
      assert addrs[..n][1..] == addrs[1..][..n - 1];
      WriteAllPrefix(mem[addrs[0] := data[0]], addrs[1..], data[1..], n - 1);
    }
  }

  /** Addresses that are not written keep their byte. */
  lemma {:induction false} WriteAllFrame(mem: seq<byte>, addrs: seq<nat>, data: seq<byte>, a: nat)
    requires Within(addrs, |mem|) && a < |mem|
    requires forall i :: 0 <= i < |addrs| && i < |data| ==> addrs[i] != a
    ensures WriteAll(mem, addrs, data)[a] == mem[a]
    decreases |addrs|
  {
    if addrs != [] && data != [] {
      assert addrs[0] != a;
      WriteAllFrame(mem[addrs[0] := data[0]], addrs[1..], data[1..], a);
    }
  }

  /** With distinct addresses every stored byte can be read back. */
  lemma {:induction false} WriteAllAt(mem: seq<byte>, addrs: seq<nat>, data: seq<byte>, i: nat)
    requires Within(addrs, |mem|) && Distinct(addrs)
    requires i < |addrs| && i < |data|
    ensures WriteAll(mem, addrs, data)[addrs[i]] == data[i]
    decreases |addrs|
  {
    var mem' := mem[addrs[0] := data[0]];
    if i == 0 {
      WriteAllFrame(mem', addrs[1..], data[1..], addrs[0]);
    } else {
      WriteAllAt(mem', addrs[1..], data[1..], i - 1);
    }
  }

  // ---- MemoryExtent.copyFrom and copyTo -----------------------------------

  method CopyFrom(ram: array<byte>, e: MemoryExtent) returns (r: Outcome<seq<byte>>)
    requires e.base + e.len <= ram.Length
    ensures r == if e.len < 16 * 1024 * 1024 then Returns(ram[e.base..e.base + e.len]) else Raises
  {
    if e.len >= COPY_LIMIT { return Raises; }
    var buf: seq<byte> := Zeros(e.len);
    for i := 0 to e.len
      invariant |buf| == e.len
      invariant buf[..i] == ram[e.base..e.base + i]
    {
      buf := buf[i := ram[e.base + i]];
    }
    assert buf[..e.len] == buf;
    r := Returns(buf);
  }

  method CopyTo(ram: array<byte>, e: MemoryExtent, src: seq<byte>)
    requires e.base + e.len <= ram.Length && |src| <= e.len
    modifies ram
    ensures ram[..] == WriteAll(old(ram[..]), e.Addrs(), src)
  {
    ghost var mem := ram[..];
    var at := e.Addrs();
    for i := 0 to |src|
      invariant ram[..] == WriteAll(mem, at[..i], src[..i])
    {
      ram[e.base + i] := src[i];
      WriteAllConcat(mem, at[..i], [at[i]], src[..i], [src[i]]);
      assert at[..i + 1] == at[..i] + [at[i]] && src[..i + 1] == src[..i] + [src[i]];
      assert WriteAll(WriteAll(mem, at[..i], src[..i]), [at[i]], [src[i]])
          == WriteAll(mem, at[..i], src[..i])[at[i] := src[i]];
    }
    assert src[..|src|] == src;
    WriteAllPrefix(mem, at, src, |src|);
  }
}

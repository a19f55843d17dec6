/** A disk unit behaves like a plain array of blocks under any sequence of
    WRITE(10) and WRITE SAME(10) commands inside the image. */
module DiskArray {
  import Bits
  import opened Common
  import opened Bytes
  import opened Extents
  import opened Buffers
  import opened Scsi

  type Block = seq<byte>

  ghost predicate Sized(a: seq<Block>, bs: nat) {
    forall i :: 0 <= i < |a| ==> |a[i]| == bs
  }

  function Join(a: seq<Block>): seq<byte> {
    if a == [] then [] else a[0] + Join(a[1..])
  }

  /** The image holds the blocks of `a`, and possibly an incomplete block. */
  ghost predicate HoldsBlocks(image: seq<byte>, a: seq<Block>, bs: nat, tail: seq<byte>) {
    Sized(a, bs) && image == Join(a) + tail
  }

  function Overwrite(a: seq<Block>, at: nat, ds: seq<Block>): (r: seq<Block>)
    requires at + |ds| <= |a|
    ensures |r| == |a|
    ensures forall i :: 0 <= i < |a| ==> r[i] == if at <= i < at + |ds| then ds[i - at] else a[i]
  {
    a[..at] + ds + a[at + |ds|..]
  }

  // ---- Joining and splitting ------------------------------------------------

  lemma {:induction false} JoinConcat(a: seq<Block>, b: seq<Block>)
    ensures Join(a + b) == Join(a) + Join(b)
  {
    if a == [] {
      assert a + b == b;
    } else {
      JoinConcat(a[1..], b);
      assert (a + b)[0] == a[0] && (a + b)[1..] == a[1..] + b;
      ConcatAssoc(a[0], Join(a[1..]), Join(b));
    }
  }

  lemma {:induction false} JoinLength(a: seq<Block>, bs: nat)
    requires Sized(a, bs)
    ensures |Join(a)| == |a| * bs
  {
    if a != [] { JoinLength(a[1..], bs); }
  }

  lemma JoinCut(a: seq<Block>, i: nat)
    requires i <= |a|
    ensures Join(a) == Join(a[..i]) + Join(a[i..])
  {
    assert a == a[..i] + a[i..];
    JoinConcat(a[..i], a[i..]);
  }

  /** `Join(a)` cut around the blocks from `i` to `i + k`. */
  lemma JoinSplit(a: seq<Block>, i: nat, k: nat)
    requires i + k <= |a|
    ensures Join(a) == Join(a[..i]) + (Join(a[i..i + k]) + Join(a[i + k..]))
  {
    JoinCut(a, i);
    JoinCut(a[i..], k);
    assert a[i..][..k] == a[i..i + k];
    DropDrop(a, i, k);
  }

  lemma WriteMiddle(before: seq<byte>, was: seq<byte>, after: seq<byte>, d: seq<byte>)
    requires |was| == |d|
    ensures FileWrite(before + (was + after), |before|, d) == before + (d + after)
  {
    var s := before + (was + after);
    assert s[..|before|] == before;
    assert s[|before| + |d|..] == after;
    if d == [] { assert was == []; }
    ConcatAssoc(before, d, after);
  }

  lemma WriteOneBlock(image: seq<byte>, a: seq<Block>, bs: nat, tail: seq<byte>, i: nat, d: Block)
    requires HoldsBlocks(image, a, bs, tail) && i < |a| && |d| == bs
    ensures HoldsBlocks(FileWrite(image, BlockBytes(i, bs), d), Overwrite(a, i, [d]), bs, tail)
  {
    var a' := Overwrite(a, i, [d]);
    JoinSplit(a, i, 1);
    JoinSplit(a', i, 1);
    assert a'[..i] == a[..i] && a'[i + 1..] == a[i + 1..];
    assert a[i..i + 1] == [a[i]] && a'[i..i + 1] == [d];
    JoinOne(a[i]);
    JoinOne(d);
    JoinLength(a[..i], bs);
    Regroup(Join(a[..i]), a[i], Join(a[i + 1..]), tail);
    Regroup(Join(a[..i]), d, Join(a[i + 1..]), tail);
    WriteMiddle(Join(a[..i]), a[i], Join(a[i + 1..]) + tail, d);
  }

  lemma JoinOne(d: Block)
    ensures Join([d]) == d
  {
    assert d + [] == d;
  }

  lemma Regroup(x: seq<byte>, y: seq<byte>, z: seq<byte>, t: seq<byte>)
    ensures (x + (y + z)) + t == x + (y + (z + t))
  {
  }

  // ---- The image as a file -----------------------------------------------------

  /** A read gives the bytes from `pos` on, as far as the file goes. */
  lemma FileReadBytes(data: seq<byte>, pos: nat, n: nat)
    ensures var r := FileRead(data, pos, n);
      && |r| == Max(0, Min(n, |data| - pos)) && forall i :: 0 <= i < |r| ==> r[i] == data[pos + i]
  {
  }

  /** A write changes the bytes it covers and no others; if it reaches beyond the
      end the file grows, with zeros in between. */
  lemma FileWriteBytes(data: seq<byte>, pos: nat, d: seq<byte>)
    ensures var r := FileWrite(data, pos, d);
      && |r| == (if d == [] then |data| else Max(|data|, pos + |d|))
      && forall i :: 0 <= i < |r| ==>
           r[i] == if pos <= i < pos + |d| then d[i - pos] else if i < |data| then data[i] else 0
  {
  }

  lemma FileWriteTwice(data: seq<byte>, pos: nat, a: seq<byte>, b: seq<byte>)
    ensures FileWrite(FileWrite(data, pos, a), pos + |a|, b) == FileWrite(data, pos, a + b)
  {
    hide FileWrite;
    var one := FileWrite(data, pos, a);
    var x, y := FileWrite(one, pos + |a|, b), FileWrite(data, pos, a + b);
    FileWriteBytes(data, pos, a);
    FileWriteBytes(one, pos + |a|, b);
    FileWriteBytes(data, pos, a + b);
    assert |x| == |y|;
    forall i | 0 <= i < |x| ensures x[i] == y[i] { }
  }

  /** A WRITE of any range, also beyond the end of the disk, is one write of its
      data to the file. */
  lemma {:induction false} WriteIsFileWrite(image: seq<byte>, pos: nat, count: nat, bs: nat, mem: seq<byte>,
                                            es: seq<MemoryExtent>)
    requires InRam(es, |mem|) && WriteBlocks(image, pos, count, bs, mem, es).1
    ensures Within(Addrs(es), |mem|) && count * bs <= |Addrs(es)|
    ensures WriteBlocks(image, pos, count, bs, mem, es).0
         == FileWrite(image, pos, ReadAll(mem, Addrs(es)[..count * bs]))
    decreases count
  {
    hide FileWrite;
    hide Addrs;
    AddrsWithin(es, |mem|);
    if count == 0 {
      assert ReadAll(mem, Addrs(es)[..0]) == [];
      FileWriteBytes(image, pos, []);
      assert FileWrite(image, pos, []) == image;
    } else {
      AfterReadAddrs(es, bs);
      AfterReadInRam(es, bs, |mem|);
      var d, rest, n := ReadAll(mem, Addrs(es)[..bs]), AfterRead(es, bs), (count - 1) * bs;
      WriteIsFileWrite(FileWrite(image, pos, d), pos + bs, count - 1, bs, mem, rest);
      OneMoreBlock(count - 1, bs);
      FrontThenRest(image, pos, bs, n, mem, Addrs(es));
    }
  }

  lemma OneMoreBlock(n: nat, bs: nat)
    ensures (n + 1) * bs == n * bs + bs
  {
  }

  lemma FrontThenRest(image: seq<byte>, pos: nat, bs: nat, n: nat, mem: seq<byte>, at: seq<nat>)
    requires Within(at, |mem|) && bs + n <= |at|
    ensures FileWrite(FileWrite(image, pos, ReadAll(mem, at[..bs])), pos + bs, ReadAll(mem, at[bs..][..n]))
         == FileWrite(image, pos, ReadAll(mem, at[..n + bs]))
  {
    hide FileWrite;
    FileWriteTwice(image, pos, ReadAll(mem, at[..bs]), ReadAll(mem, at[bs..][..n]));
    assert ReadAll(mem, at[..n + bs]) == ReadAll(mem, at[..bs]) + ReadAll(mem, at[bs..][..n]);
  }

  /** So is a WRITE SAME, of its block over and over. */
  lemma {:induction false} FillIsFileWrite(image: seq<byte>, pos: nat, count: nat, d: seq<byte>)
    ensures FillBlocks(image, pos, count, d) == FileWrite(image, pos, Join(Same(d, count)))
    decreases count
  {
    hide FileWrite;
    if count == 0 {
      FileWriteBytes(image, pos, []);
      assert FileWrite(image, pos, []) == image;
    } else {
      FillIsFileWrite(FileWrite(image, pos, d), pos + |d|, count - 1, d);
      FileWriteTwice(image, pos, d, Join(Same(d, count - 1)));
      assert Same(d, count)[1..] == Same(d, count - 1);
    }
  }

  // ---- WRITE(10) ------------------------------------------------------------

  /** The data-out bytes as blocks, as if they were contiguous. */
  function DataBlocks(mem: seq<byte>, at: seq<nat>, count: nat, bs: nat): (ds: seq<Block>)
    requires Within(at, |mem|)
    ensures |ds| == count
    decreases count
  {
    if count == 0 then []
    else
      [ReadAll(mem, at[..Min(bs, |at|)])] + DataBlocks(mem, at[Min(bs, |at|)..], count - 1, bs)
  }

  /** The data-out extents hold `need` bytes, and every extent boundary before
      that point is a block boundary. */
  ghost predicate BlocksFit(es: seq<MemoryExtent>, need: nat, bs: nat)
    requires bs > 0
  {
    && need <= |Addrs(es)|
    && forall j :: 0 <= j <= |es| && End(es, j) < need ==> End(es, j) % bs == 0
  }

  /** Where the first `j` extents end. */
  function End(es: seq<MemoryExtent>, j: nat): nat
    requires j <= |es|
  {
    |Addrs(es[..j])|
  }

  ghost predicate NonEmpty(es: seq<MemoryExtent>) {
    forall i :: 0 <= i < |es| ==> es[i].len > 0
  }

  lemma EndStep(es: seq<MemoryExtent>, j: nat, n: nat)
    requires es != [] && n <= es[0].len && NonEmpty(es)
    requires j <= |AfterRead(es, n)|
    ensures n < es[0].len && j > 0 ==> End(AfterRead(es, n), j) == End(es, j) - n
    ensures n == es[0].len ==> End(AfterRead(es, n), j) == End(es, j + 1) - n
  {
    var r := AfterRead(es, n);
    if n == es[0].len {
      assert es[..j + 1] == [es[0]] + r[..j];
      assert es[..j + 1][1..] == r[..j];
    } else if j > 0 {
      assert r[..j][1..] == es[..j][1..];
    }
  }

  lemma FitStep(es: seq<MemoryExtent>, need: nat, bs: nat)
    requires bs > 0 && NonEmpty(es) && need >= bs && es != [] && es[0].len >= bs
    ensures NonEmpty(AfterRead(es, bs))
    ensures BlocksFit(es, need, bs) <==> BlocksFit(AfterRead(es, bs), need - bs, bs)
  {
    var r := AfterRead(es, bs);
    AfterReadAddrs(es, bs);
    var shift := if es[0].len == bs then 1 else 0;
    assert |r| == |es| - shift;
    forall j | 0 <= j <= |r| && (shift == 1 || j > 0)
      ensures End(es, j + shift) >= bs && End(r, j) == End(es, j + shift) - bs
      ensures End(es, j + shift) % bs == End(r, j) % bs
    {
      EndStep(es, j, bs);
      Bits.ModStep(End(es, j + shift), bs);
    }
    assert End(es, 0) == 0 && End(r, 0) == 0;
    Bits.ModSmall(0, bs);
    if BlocksFit(es, need, bs) {
      forall j | 0 <= j <= |r| && End(r, j) < need - bs ensures End(r, j) % bs == 0 {
        if shift == 1 || j > 0 { assert End(es, j + shift) < need; }
      }
    }
    if BlocksFit(r, need - bs, bs) {
      forall j | 0 <= j <= |es| && End(es, j) < need ensures End(es, j) % bs == 0 {
        if j > 0 { assert End(r, j - shift) < need - bs; }
      }
    }
  }

  /** Every block of a WRITE can be read out of one extent exactly when enough
      data is there and no block straddles two extents. */
  lemma {:induction false} WriteSucceedsIff(image: seq<byte>, pos: nat, count: nat, bs: nat,
                                            mem: seq<byte>, es: seq<MemoryExtent>)
    requires bs > 0 && InRam(es, |mem|) && NonEmpty(es)
    ensures WriteBlocks(image, pos, count, bs, mem, es).1 <==> BlocksFit(es, BlockBytes(count, bs), bs)
    decreases count
  {
    hide BlocksFit;
    hide FileWrite;
    if count == 0 {
      NothingFits(es, bs);
    } else {
      NextBlock(count - 1, bs);
      if Taken(es, bs) == bs {
        AddrsWithin(es, |mem|);
        AfterReadAddrs(es, bs);
        AfterReadInRam(es, bs, |mem|);
        FitStep(es, BlockBytes(count, bs), bs);
        WriteSucceedsIff(FileWrite(image, pos, ReadAll(mem, Addrs(es)[..bs])), pos + bs, count - 1, bs, mem,
                         AfterRead(es, bs));
      } else {
        ShortFirstExtent(es, BlockBytes(count, bs), bs);
      }
    }
  }

  lemma NothingFits(es: seq<MemoryExtent>, bs: nat)
    requires bs > 0
    ensures BlocksFit(es, 0, bs)
  {
  }

  lemma ShortFirstExtent(es: seq<MemoryExtent>, need: nat, bs: nat)
    requires bs > 0 && need >= bs && NonEmpty(es) && Taken(es, bs) != bs
    ensures !BlocksFit(es, need, bs)
  {
    if es != [] {
      assert es[..1] == [es[0]] && Addrs([es[0]]) == es[0].Addrs() + [];
      assert End(es, 1) == es[0].len;
      Bits.ModSmall(es[0].len, bs);
    }
  }

  /** A WRITE that succeeds stores the data-out blocks and nothing else. */
  lemma {:induction false} WriteStoresBlocks(image: seq<byte>, a: seq<Block>, tail: seq<byte>, lba: nat, count: nat,
                                             bs: nat, mem: seq<byte>, es: seq<MemoryExtent>)
    requires bs > 0 && InRam(es, |mem|) && HoldsBlocks(image, a, bs, tail) && lba + count <= |a|
    requires WriteBlocks(image, BlockBytes(lba, bs), count, bs, mem, es).1
    ensures Within(Addrs(es), |mem|)
    ensures HoldsBlocks(WriteBlocks(image, BlockBytes(lba, bs), count, bs, mem, es).0,
                        Overwrite(a, lba, DataBlocks(mem, Addrs(es), count, bs)), bs, tail)
    decreases count
  {
    hide HoldsBlocks;
    hide FileWrite;
    hide BlockBytes;
    AddrsWithin(es, |mem|);
    if count == 0 {
      assert Overwrite(a, lba, []) == a;
    } else {
      AfterReadAddrs(es, bs);
      AfterReadInRam(es, bs, |mem|);
      var d, rest := ReadAll(mem, Addrs(es)[..bs]), AfterRead(es, bs);
      WriteOneBlock(image, a, bs, tail, lba, d);
      NextBlock(lba, bs);
      WriteStoresBlocks(FileWrite(image, BlockBytes(lba, bs), d), Overwrite(a, lba, [d]), tail, lba + 1, count - 1,
                        bs, mem, rest);
      var ds := DataBlocks(mem, Addrs(rest), count - 1, bs);
      assert DataBlocks(mem, Addrs(es), count, bs) == [d] + ds;
      OverwriteCons(a, lba, d, ds);
    }
  }

  lemma NextBlock(lba: nat, bs: nat)
    ensures BlockBytes(lba + 1, bs) == BlockBytes(lba, bs) + bs
  {
  }

  lemma OverwriteCons(a: seq<Block>, at: nat, d: Block, ds: seq<Block>)
    requires at + 1 + |ds| <= |a|
    ensures Overwrite(Overwrite(a, at, [d]), at + 1, ds) == Overwrite(a, at, [d] + ds)
  {
  }

  // ---- WRITE SAME(10) ---------------------------------------------------------

  function Same(d: Block, count: nat): (ds: seq<Block>)
    ensures |ds| == count && forall i :: 0 <= i < count ==> ds[i] == d
  {
    seq(count, _ => d)
  }

  lemma {:induction false} FillStoresBlocks(image: seq<byte>, a: seq<Block>, tail: seq<byte>, lba: nat, count: nat,
                                            bs: nat, d: Block)
    requires HoldsBlocks(image, a, bs, tail) && lba + count <= |a| && |d| == bs
    ensures HoldsBlocks(FillBlocks(image, BlockBytes(lba, bs), count, d), Overwrite(a, lba, Same(d, count)), bs, tail)
    decreases count
  {
    if count == 0 {
      assert Overwrite(a, lba, []) == a;
    } else {
      WriteOneBlock(image, a, bs, tail, lba, d);
      NextBlock(lba, bs);
      FillStoresBlocks(FileWrite(image, BlockBytes(lba, bs), d), Overwrite(a, lba, [d]), tail, lba + 1, count - 1, bs,
                       d);
      OverwriteCons(a, lba, d, Same(d, count - 1));
      assert [d] + Same(d, count - 1) == Same(d, count);
    }
  }

  // ---- READ(10) --------------------------------------------------------------

  lemma ReadGivesBlocks(image: seq<byte>, a: seq<Block>, bs: nat, tail: seq<byte>, lba: nat, count: nat)
    requires HoldsBlocks(image, a, bs, tail) && lba + count <= |a|
    ensures FileRead(image, BlockBytes(lba, bs), BlockBytes(count, bs)) == Join(a[lba..lba + count])
  {
    JoinSplit(a, lba, count);
    JoinLength(a[..lba], bs);
    JoinLength(a[lba..lba + count], bs);
    var x, y, z := Join(a[..lba]), Join(a[lba..lba + count]), Join(a[lba + count..]);
    Regroup(x, y, z, tail);
    CutMiddle(x, y, z + tail);
  }

  lemma CutMiddle(x: seq<byte>, y: seq<byte>, z: seq<byte>)
    ensures FileRead(x + (y + z), |x|, |y|) == y
  {
  }

  // ---- Whole command sequences --------------------------------------------------

  /** Any command together with the guest memory it finds, its data-out extents if
      it has any, and the room for its reply's data if it has any. */
  datatype Command = Command(cdb: seq<byte>, mem: seq<byte>, out: Option<seq<MemoryExtent>>, inLen: Option<nat>) {
    /** As a chain hands it over. */
    ghost predicate Valid() {
      |cdb| >= 6 && (out.Some? ==> InRam(out.value, |mem|) && NonEmpty(out.value))
    }

    /** A WRITE(10), or a WRITE SAME(10) that is not refused, with data. */
    predicate Writes() {
      && |cdb| >= 10 && out.Some?
      && (cdb[0] == 0x2A || (cdb[0] == 0x41 && cdb[1] / 2 % 2 == 0 && cdb[1] / 4 % 2 == 0))
    }
  }

  function Perform(cfg: UnitConfig, u: UnitState, c: Command): (UnitState, Outcome<Reply>)
    requires |c.cdb| >= 6 && (c.out.Some? ==> InRam(c.out.value, |c.mem|))
  {
    Execute(cfg, u, c.cdb, c.mem, c.out, c.inLen)
  }

  /** If the command writes, it writes inside `n` blocks, and the data of a
      WRITE(10) is in place. */
  ghost predicate WellPlaced(c: Command, n: nat, bs: nat)
    requires bs > 0
  {
    && c.Valid()
    && (c.Writes() ==>
          && Lba(c.cdb) + Count(c.cdb) <= n
          && (c.cdb[0] == 0x2A ==> BlocksFit(c.out.value, BlockBytes(Count(c.cdb), bs), bs)))
  }

  /** What the command does to a plain array of blocks. */
  function ArrayEffect(a: seq<Block>, c: Command, bs: nat): (r: seq<Block>)
    requires c.Writes() ==> Within(Addrs(c.out.value), |c.mem|) && Lba(c.cdb) + Count(c.cdb) <= |a|
    ensures |r| == |a|
  {
    if !c.Writes() then a
    else
      var at, lba, count := Addrs(c.out.value), Lba(c.cdb), Count(c.cdb);
      if c.cdb[0] == 0x2A then Overwrite(a, lba, DataBlocks(c.mem, at, count, bs))
      else if Taken(c.out.value, bs) != bs then a
      else Overwrite(a, lba, Same(ReadAll(c.mem, at[..Min(bs, |at|)]), count))
  }

  ghost predicate AllWellPlaced(cs: seq<Command>, n: nat, bs: nat)
    requires bs > 0
  {
    forall i :: 0 <= i < |cs| ==> WellPlaced(cs[i], n, bs)
  }

  ghost function RunArray(a: seq<Block>, cs: seq<Command>, bs: nat): (r: seq<Block>)
    requires bs > 0 && AllWellPlaced(cs, |a|, bs)
    ensures |r| == |a|
    decreases |cs|
  {
    if cs == [] then a
    else
      PlacedData(cs[0], |a|, bs);
      RunArray(ArrayEffect(a, cs[0], bs), cs[1..], bs)
  }

  lemma PlacedData(c: Command, n: nat, bs: nat)
    requires bs > 0 && WellPlaced(c, n, bs)
    ensures c.Writes() ==> Within(Addrs(c.out.value), |c.mem|) && Lba(c.cdb) + Count(c.cdb) <= n
  {
    if c.Writes() { AddrsWithin(c.out.value, |c.mem|); }
  }

  /** The unit runs the commands one after the other. */
  ghost function RunUnit(cfg: UnitConfig, u: UnitState, cs: seq<Command>): UnitState
    requires forall i :: 0 <= i < |cs| ==> cs[i].Valid()
    decreases |cs|
  {
    if cs == [] then u
    else
      assert cs[0].Valid();
      RunUnit(cfg, Perform(cfg, u, cs[0]).0, cs[1..])
  }

  /** One command, with or without room for a reply. */
  lemma OneCommand(cfg: UnitConfig, u: UnitState, a: seq<Block>, tail: seq<byte>, c: Command)
    requires cfg.Valid() && cfg.kind.Disk? && HoldsBlocks(u.image, a, cfg.blockSize, tail)
    requires WellPlaced(c, |a|, cfg.blockSize)
    ensures c.Writes() ==> Within(Addrs(c.out.value), |c.mem|)
    ensures HoldsBlocks(Perform(cfg, u, c).0.image, ArrayEffect(a, c, cfg.blockSize), cfg.blockSize, tail)
    ensures c.Writes() && c.cdb[0] == 0x2A ==> Perform(cfg, u, c).1 == Returns(Good([]))
  {
    hide Bits.And;
    hide HoldsBlocks;
    hide BlocksFit;
    hide WriteBlocks;
    hide FillBlocks;
    hide DataBlocks;
    hide FileRead;
    hide MakeSense;
    PlacedData(c, |a|, cfg.blockSize);
    Bits.LowBits(c.cdb[1]);
    if c.Writes() {
      var bs, lba, count, es := cfg.blockSize, Lba(c.cdb), Count(c.cdb), c.out.value;
      if c.cdb[0] == 0x2A {
        WriteSucceedsIff(u.image, BlockBytes(lba, bs), count, bs, c.mem, es);
        WriteStoresBlocks(u.image, a, tail, lba, count, bs, c.mem, es);
      } else if Taken(es, bs) == bs {
        AfterReadAddrs(es, bs);
        FillStoresBlocks(u.image, a, tail, lba, count, bs, ReadAll(c.mem, Addrs(es)[..bs]));
      }
    }
  }

  /** Over any sequence of commands, reads and everything else among them, the
      image holds what a plain array of blocks would. */
  lemma {:induction false} RunIsArray(cfg: UnitConfig, u: UnitState, a: seq<Block>, tail: seq<byte>, cs: seq<Command>)
    requires cfg.Valid() && cfg.kind.Disk? && HoldsBlocks(u.image, a, cfg.blockSize, tail)
    requires AllWellPlaced(cs, |a|, cfg.blockSize)
    ensures HoldsBlocks(RunUnit(cfg, u, cs).image, RunArray(a, cs, cfg.blockSize), cfg.blockSize, tail)
    decreases |cs|
  {
    hide HoldsBlocks;
    hide WellPlaced;
    hide Perform;
    hide ArrayEffect;
    if cs != [] {
      var c := cs[0];
      OneCommand(cfg, u, a, tail, c);
      PlacedData(c, |a|, cfg.blockSize);
      assert c.Valid() by { PlacedIsValid(c, |a|, cfg.blockSize); }
      RunIsArray(cfg, Perform(cfg, u, c).0, ArrayEffect(a, c, cfg.blockSize), tail, cs[1..]);
    }
  }

  lemma PlacedIsValid(c: Command, n: nat, bs: nat)
    requires bs > 0 && WellPlaced(c, n, bs)
    ensures c.Valid()
  {
  }

  /** After any sequence of commands, READ(10) returns what the plain array holds,
      whatever data-out comes with it. */
  lemma ReadAfterWrites(cfg: UnitConfig, u: UnitState, a: seq<Block>, tail: seq<byte>, cs: seq<Command>, read: Command)
    requires cfg.Valid() && cfg.kind.Disk? && HoldsBlocks(u.image, a, cfg.blockSize, tail)
    requires AllWellPlaced(cs, |a|, cfg.blockSize)
    requires read.Valid() && |read.cdb| >= 10 && read.cdb[0] == 0x28 && read.inLen.Some?
    requires Lba(read.cdb) + Count(read.cdb) <= |a|
    ensures Perform(cfg, RunUnit(cfg, u, cs), read).1
         == Returns(Good(Join(RunArray(a, cs, cfg.blockSize)[Lba(read.cdb)..Lba(read.cdb) + Count(read.cdb)])))
  {
    hide RunUnit;
    hide RunArray;
    hide HoldsBlocks;
    hide FileRead;
    RunIsArray(cfg, u, a, tail, cs);
    ReadGivesBlocks(RunUnit(cfg, u, cs).image, RunArray(a, cs, cfg.blockSize), cfg.blockSize, tail,
                    Lba(read.cdb), Count(read.cdb));
  }

  // ---- Sense data -------------------------------------------------------------------

  /** Fixed-format sense data that reports nothing: sense key 0, code 0. */
  const NO_SENSE: seq<byte> := [0x70, 0, 0, 0, 0, 0, 0, 0, 0, 0, 0, 0, 0, 0, 0, 0, 0, 0]

  /** What REQUEST SENSE is to report after a command. */
  function SenseToReport(last: Option<seq<byte>>): seq<byte> {
    if last.Some? then last.value else NO_SENSE
  }

  /** REQUEST SENSE reports the sense data of the last command that completed, be
      it the unit's first, as much as it allows for, and clears it; a command that
      raises leaves it. */
  lemma SenseIsReportedOnce(cfg: UnitConfig, u: UnitState, cdb: seq<byte>, mem: seq<byte>,
                            out: Option<seq<MemoryExtent>>, inLen: Option<nat>, ask: seq<byte>, room: nat)
    requires |cdb| >= 6 && (out.Some? ==> InRam(out.value, |mem|))
    requires Execute(cfg, u, cdb, mem, out, inLen).1.Returns? || u.lastSense.Assigned?
    requires |ask| >= 6 && ask[0] == 0x03 && ask[1] % 2 == 0
    ensures var r := Execute(cfg, u, cdb, mem, out, inLen);
      var sense := SenseToReport(if r.1.Returns? then r.1.result.sense else u.lastSense.data);
      var first := Execute(cfg, r.0, ask, mem, None, Some(room));
      var second := Execute(cfg, first.0, ask, mem, None, Some(room));
      && first.1 == Returns(Reply(0, None, sense[..Min(ask[4], |sense|)]))
      && second.1 == Returns(Reply(0, None, NO_SENSE[..Min(ask[4], 18)]))
      && second.0.image == first.0.image == r.0.image
  {
    hide Dispatch;
    var r := Execute(cfg, u, cdb, mem, out, inLen);
    AskForSense(cfg, r.0, ask, mem, None, room);
    AskForSense(cfg, Execute(cfg, r.0, ask, mem, None, Some(room)).0, ask, mem, None, room);
  }

  lemma AskForSense(cfg: UnitConfig, u: UnitState, ask: seq<byte>, mem: seq<byte>, out: Option<seq<MemoryExtent>>,
                    room: nat)
    requires (out.Some? ==> InRam(out.value, |mem|)) && |ask| >= 6 && ask[0] == 0x03 && ask[1] % 2 == 0
    requires u.lastSense.Assigned?
    ensures var sense := SenseToReport(u.lastSense.data);
      Execute(cfg, u, ask, mem, out, Some(room))
        == (UnitState(u.image, Assigned(None)), Returns(Reply(0, None, sense[..Min(ask[4], |sense|)])))
  {
    hide Bits.And;
    Bits.LowBits(ask[1]);
  }
}

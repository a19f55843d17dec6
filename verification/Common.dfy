/** Small definitions shared by every module. */
module Common {

  datatype Option<+T> = None | Some(value: T)

  /** The result of a Python call that can also raise. */
  datatype Outcome<+T> = Returns(result: T) | Raises

  function Min(a: int, b: int): int { if a <= b then a else b }

  function Max(a: int, b: int): int { if a <= b then b else a }
}

/** Bytes and the fixed-width integer encodings of `struct.pack` and `unpack`. */
module Bytes {

  type byte = x: int | 0 <= x < 256

  /** 256 to the power `n`. */
  function Limit(n: nat): (r: nat)
    ensures r >= 1
  {
    if n == 0 then 1 else 256 * Limit(n - 1)
  }

  /** The `n` low bytes of `v`, least significant first. */
  function ToLe(v: nat, n: nat): (s: seq<byte>)
    ensures |s| == n
  {
    if n == 0 then [] else [v % 256] + ToLe(v / 256, n - 1)
  }

  function FromLe(s: seq<byte>): nat {
    if s == [] then 0 else s[0] + 256 * FromLe(s[1..])
  }

  function FromBe(s: seq<byte>): nat {
    if s == [] then 0 else 256 * FromBe(s[..|s| - 1]) + s[|s| - 1]
  }

  /** The `n` low bytes of `v`, most significant first. */
  function ToBe(v: nat, n: nat): (s: seq<byte>)
    ensures |s| == n
  {
    if n == 0 then [] else ToBe(v / 256, n - 1) + [v % 256]
  }

  function Zeros(n: nat): (s: seq<byte>)
    ensures |s| == n
  {
    seq(n, _ => 0)
  }

  lemma {:induction false} UnpackPacked(v: nat, n: nat)
    requires v < Limit(n)
    ensures FromLe(ToLe(v, n)) == v
  {
    if n > 0 {
      UnpackPacked(v / 256, n - 1);
      assert ToLe(v, n)[1..] == ToLe(v / 256, n - 1);
    }
  }

  lemma {:induction false} UnpackPackedBe(v: nat, n: nat)
    requires v < Limit(n)
    ensures FromBe(ToBe(v, n)) == v
  {
    if n > 0 {
      UnpackPackedBe(v / 256, n - 1);
      assert ToBe(v, n)[..n - 1] == ToBe(v / 256, n - 1);
    }
  }

  lemma {:induction false} ZerosValue(s: seq<byte>)
    requires forall i :: 0 <= i < |s| ==> s[i] == 0
    ensures FromLe(s) == 0
  {
    if s != [] { ZerosValue(s[1..]); }
  }

  lemma {:induction false} PackUnpacked(s: seq<byte>)
    ensures FromLe(s) < Limit(|s|)
    ensures ToLe(FromLe(s), |s|) == s
  {
    if s != [] {
      PackUnpacked(s[1..]);
      var v := FromLe(s);
      assert v % 256 == s[0] && v / 256 == FromLe(s[1..]);
      assert s == [s[0]] + s[1..];
    }
  }
}

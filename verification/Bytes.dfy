/** Bytes, words and the C integer operations the other modules share. */
module Bytes {

  type byte = x: int | 0 <= x < 0x100

  type uint16 = x: int | 0 <= x < 0x1_0000

  datatype Option<+T> = None | Some(value: T)

  function Min(a: int, b: int): int {
    if a <= b then a else b
  }

  function Max(a: int, b: int): int {
    if a <= b then b else a
  }

  function Abs(a: int): int {
    if a < 0 then -a else a
  }

  /** Sum of the elements, as an unbounded integer. */
  function Sum(s: seq<byte>): nat {
    if s == [] then 0 else Sum(s[..|s| - 1]) + s[|s| - 1]
  }

  lemma {:induction false} SumConcat(s: seq<byte>, t: seq<byte>)
    ensures Sum(s + t) == Sum(s) + Sum(t)
  {
    if t == [] {
      assert s + t == s;
    } else {
      assert (s + t)[..|s + t| - 1] == s + t[..|t| - 1];
      SumConcat(s, t[..|t| - 1]);
    }
  }

  lemma {:induction false} SumUpdate(s: seq<byte>, k: nat, b: byte)
    requires k < |s|
    ensures Sum(s[k := b]) == Sum(s) - s[k] + b
  {
    var n := |s| - 1;
    if k == n {
      assert s[k := b][..n] == s[..n];
    } else {
      assert s[k := b][..n] == s[..n][k := b];
      SumUpdate(s[..n], k, b);
    }
  }

  /** Changing one byte of a string whose sum is a multiple of 256 makes it no multiple. */
  lemma ChecksumSeesByte(s: seq<byte>, k: nat, b: byte)
    requires k < |s| && Sum(s) % 256 == 0 && b != s[k]
    ensures Sum(s[k := b]) % 256 != 0
  {
    SumUpdate(s, k, b);
  }
}

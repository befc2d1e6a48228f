/** 32-bit entries that hold a frequency, an index or a depth above a 10-bit symbol. */
module Packed {

  const SYMBOL_VALUES: nat := 1024
  const HIGH_VALUES: nat := 0x40_0000

  type u32 = x: int | 0 <= x < 0x1_0000_0000

  function Hi(e: u32): (h: nat)
    ensures h < HIGH_VALUES
  {
    e / SYMBOL_VALUES
  }

  function Sym(e: u32): (s: nat)
    ensures s < SYMBOL_VALUES
  {
    e % SYMBOL_VALUES
  }

  function Pack(h: nat, s: nat): (e: u32)
    requires h < HIGH_VALUES && s < SYMBOL_VALUES
    ensures Hi(e) == h && Sym(e) == s
  {
    h * SYMBOL_VALUES + s
  }

  function His(s: seq<u32>): (r: seq<nat>)
    ensures |r| == |s| && forall k :: 0 <= k < |s| ==> r[k] == Hi(s[k])
  {
    seq(|s|, k requires 0 <= k < |s| => Hi(s[k]))
  }

  function Syms(s: seq<u32>): (r: seq<nat>)
    ensures |r| == |s| && forall k :: 0 <= k < |s| ==> r[k] == Sym(s[k])
  {
    seq(|s|, k requires 0 <= k < |s| => Sym(s[k]))
  }

  ghost predicate Sorted(f: seq<nat>) {
    forall j, k :: 0 <= j < k < |f| ==> f[j] <= f[k]
  }
}

/** The sixteen-byte blocks the cipher works on, and blocks given byte by byte. */
module Blocks {
  import opened Words

  type Block = s: seq<Byte> | |s| == 16 witness seq(16, _ => 0)

  /** The bytes f(0), ..., f(n - 1). */
  function Filled(n: nat, f: nat --> Byte): (s: seq<Byte>)
    requires forall i: nat :: i < n ==> f.requires(i)
    ensures |s| == n
  {
    if n == 0 then [] else Filled(n - 1, f) + [f(n - 1)]
  }

  lemma {:induction false} FilledAt(n: nat, f: nat --> Byte, i: nat)
    requires forall i: nat :: i < n ==> f.requires(i)
    requires i < n
    ensures Filled(n, f)[i] == f(i)
    decreases n
  {
    if i < n - 1 { FilledAt(n - 1, f, i); }
  }

  /** Blocks that agree at every place are equal. */
  lemma SameBlock(a: Block, b: Block)
    requires forall i: nat :: i < 16 ==> a[i] == b[i]
    ensures a == b
  {}
}

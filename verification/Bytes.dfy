/** Numbers in memory: little-endian words in a sequence of bytes. */
module Bytes {
  type Byte = x: int | 0 <= x < 256

  /** How many numbers there are of `n` bytes. */
  function Numbers(n: nat): (r: nat)
    ensures r > 0
  {
    if n == 0 then 1 else 256 * Numbers(n - 1)
  }

  const WORDS: nat := 4294967296
  const ADDRESSES: nat := 18446744073709551616

  /** Byte `k` of `v`, from the least. */
  function Digit(v: nat, k: nat): Byte { if k == 0 then v % 256 else Digit(v / 256, k - 1) }

  /** The word of `n` bytes at offset `i`. */
  function Word(mem: seq<Byte>, i: nat, n: nat): nat
    requires i + n <= |mem|
    decreases |mem| - i
  {
    if n == 0 then 0 else mem[i] + 256 * Word(mem, i + 1, n - 1)
  }

  /** Memory with `v` in the `n` bytes at offset `i`; what does not fit is cut off. */
  function Put(mem: seq<Byte>, i: nat, n: nat, v: nat): (r: seq<Byte>)
    requires i + n <= |mem|
    ensures |r| == |mem|
    ensures forall j :: 0 <= j < |mem| ==> r[j] == if i <= j < i + n then Digit(v, j - i) else mem[j]
  {
    seq(|mem|, j requires 0 <= j < |mem| => ByteAfter(mem, i, n, v, j))
  }

  function ByteAfter(mem: seq<Byte>, i: nat, n: nat, v: nat, j: nat): Byte
    requires j < |mem|
  {
    if i <= j < i + n then Digit(v, j - i) else mem[j]
  }

  lemma {:induction false} WordOfDigits(mem: seq<Byte>, i: nat, n: nat, v: nat)
    requires i + n <= |mem| && v < Numbers(n) && forall j :: i <= j < i + n ==> mem[j] == Digit(v, j - i)
    ensures Word(mem, i, n) == v
    decreases n
  {
    if n > 0 {
      forall j | i + 1 <= j < i + n ensures mem[j] == Digit(v / 256, j - (i + 1)) { assert mem[j] == Digit(v, j - i); }
      assert mem[i] == Digit(v, 0);
      WordOfDigits(mem, i + 1, n - 1, v / 256);
    }
  }

  /** What was put is what is read. */
  lemma WordPut(mem: seq<Byte>, i: nat, n: nat, v: nat)
    requires i + n <= |mem| && v < Numbers(n)
    ensures Word(Put(mem, i, n, v), i, n) == v
  {
    WordOfDigits(Put(mem, i, n, v), i, n, v);
  }

  /** A word depends on its own bytes only. */
  lemma {:induction false} WordAgrees(p: seq<Byte>, q: seq<Byte>, i: nat, n: nat)
    requires i + n <= |p| && i + n <= |q| && forall j :: i <= j < i + n ==> p[j] == q[j]
    ensures Word(p, i, n) == Word(q, i, n)
    decreases n
  {
    if n > 0 { WordAgrees(p, q, i + 1, n - 1); }
  }

  lemma {:induction false} WordIsBelow(mem: seq<Byte>, i: nat, n: nat)
    requires i + n <= |mem|
    ensures Word(mem, i, n) < Numbers(n)
    decreases n
  {
    if n > 0 { WordIsBelow(mem, i + 1, n - 1); }
  }

  lemma Widths()
    ensures Numbers(4) == WORDS && Numbers(8) == ADDRESSES
  {
    assert Numbers(4) == WORDS;
  }
}

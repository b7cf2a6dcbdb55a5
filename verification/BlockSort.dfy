/** The exchange sort on raw bytes, `qsort_r` in cpp/rustdesk_bridge_loader.cpp. */
module BlockSort {
  import opened Wrappers

  type Byte = x: int | 0 <= x < 256
  type Block = seq<Byte>
  type Comparator = (Block, Block) -> int

  // ---- stride addressing --------------------------------------------------

  /** The address of block `i`. */
  function At(base: nat, size: nat, i: nat): nat {
    base + i * size
  }

  lemma StrideOrder(base: nat, size: nat, i: nat, j: nat)
    requires i < j
    ensures At(base, size, i) + size == At(base, size, i + 1) <= At(base, size, j)
  {
    assert (i + 1) * size <= j * size by {
      assert j * size == (i + 1) * size + (j - i - 1) * size;
    }
  }

  function BlockAt(s: seq<Byte>, base: nat, size: nat, i: nat): Block
    requires At(base, size, i) + size <= |s|
  {
    s[At(base, size, i)..At(base, size, i) + size]
  }

  /** The `n` blocks of the array. */
  function Blocks(s: seq<Byte>, base: nat, size: nat, n: nat): (bs: seq<Block>)
    requires At(base, size, n) <= |s|
    ensures |bs| == n
    ensures forall i :: 0 <= i < n ==> At(base, size, i) + size <= |s| && bs[i] == BlockAt(s, base, size, i)
  {
    Fits(|s|, base, size, n);
    seq(n, i requires 0 <= i < n => BlockAt(s, base, size, i))
  }

  lemma Fits(length: nat, base: nat, size: nat, n: nat)
    requires At(base, size, n) <= length
    ensures forall i :: 0 <= i < n ==> At(base, size, i) + size <= length
  {
    forall i | 0 <= i < n ensures At(base, size, i) + size <= length {
      StrideOrder(base, size, i, n);
    }
  }

  /** The bytes with the two stretches of length `size` at `p` and `q` exchanged. */
  function Exchanged(s: seq<Byte>, p: nat, q: nat, size: nat): (r: seq<Byte>)
    requires p + size <= q && q + size <= |s|
    ensures |r| == |s|
  {
    s[..p] + s[q..q + size] + s[p + size..q] + s[p..p + size] + s[q + size..]
  }

  lemma ExchangedSlices(s: seq<Byte>, p: nat, q: nat, size: nat)
    requires p + size <= q && q + size <= |s|
    ensures var r := Exchanged(s, p, q, size);
            r[p..p + size] == s[q..q + size] && r[q..q + size] == s[p..p + size]
  {
  }

  /** A byte in neither stretch stays. */
  lemma ExchangedAt(s: seq<Byte>, p: nat, q: nat, size: nat, k: nat)
    requires p + size <= q && q + size <= |s|
    requires k < p || p + size <= k < q || q + size <= k < |s|
    ensures Exchanged(s, p, q, size)[k] == s[k]
  {
  }

  lemma SlicesEqual(r: seq<Byte>, s: seq<Byte>, a: nat, b: nat)
    requires |r| == |s| && a <= b <= |s| && forall k :: a <= k < b ==> r[k] == s[k]
    ensures r[a..b] == s[a..b]
  {
    forall k | 0 <= k < b - a ensures r[a..b][k] == s[a..b][k] {
      assert r[a..b][k] == r[a + k];
    }
  }

  lemma ExchangedElsewhere(s: seq<Byte>, p: nat, q: nat, size: nat, a: nat, b: nat)
    requires p + size <= q && q + size <= |s| && a <= b <= |s|
    requires b <= p || (p + size <= a && b <= q) || q + size <= a
    ensures Exchanged(s, p, q, size)[a..b] == s[a..b]
  {
    var r := Exchanged(s, p, q, size);
    forall k | a <= k < b ensures r[k] == s[k] {
      ExchangedAt(s, p, q, size, k);
    }
    SlicesEqual(r, s, a, b);
  }

  function SwapAt<T>(bs: seq<T>, i: nat, j: nat): (r: seq<T>)
    requires i < |bs| && j < |bs|
    ensures |r| == |bs|
  {
    bs[i := bs[j]][j := bs[i]]
  }

  lemma ExchangeWithin(s: seq<Byte>, p: nat, q: nat, size: nat, a: nat, b: nat)
    requires a <= p && p + size <= q && q + size <= b <= |s|
    ensures Exchanged(s, p, q, size)[..a] == s[..a] && Exchanged(s, p, q, size)[b..] == s[b..]
  {
    ExchangedElsewhere(s, p, q, size, 0, a);
    ExchangedElsewhere(s, p, q, size, b, |s|);
  }

  /** Exchanging two stretches at block addresses exchanges the two blocks. */
  lemma ExchangeIsSwap(s: seq<Byte>, base: nat, size: nat, n: nat, i: nat, j: nat)
    requires At(base, size, n) <= |s| && i < j < n
    ensures At(base, size, i) + size <= At(base, size, j) && At(base, size, j) + size <= |s|
    ensures var r := Exchanged(s, At(base, size, i), At(base, size, j), size);
            && Blocks(r, base, size, n) == SwapAt(Blocks(s, base, size, n), i, j)
            && r[..base] == s[..base] && r[At(base, size, n)..] == s[At(base, size, n)..]
  {
    var p, q := At(base, size, i), At(base, size, j);
    StrideOrder(base, size, i, j);
    StrideOrder(base, size, j, n);
    var r := Exchanged(s, p, q, size);
    var bs, cs := Blocks(s, base, size, n), Blocks(r, base, size, n);
    ExchangedSlices(s, p, q, size);
    ExchangeWithin(s, p, q, size, base, At(base, size, n));
    forall k | 0 <= k < n ensures cs[k] == SwapAt(bs, i, j)[k] {
      if k != i && k != j {
        OtherBlock(s, base, size, n, i, j, k);
      }
    }
  }

  lemma OtherBlock(s: seq<Byte>, base: nat, size: nat, n: nat, i: nat, j: nat, k: nat)
    requires At(base, size, n) <= |s| && i < j < n && k < n && k != i && k != j
    requires At(base, size, i) + size <= At(base, size, j) && At(base, size, j) + size <= |s|
    requires At(base, size, k) + size <= |s|
    ensures BlockAt(Exchanged(s, At(base, size, i), At(base, size, j), size), base, size, k) == BlockAt(s, base, size, k)
  {
    if k < i {
      StrideOrder(base, size, k, i);
    } else {
      StrideOrder(base, size, i, k);
    }
    if k < j {
      StrideOrder(base, size, k, j);
    } else {
      StrideOrder(base, size, j, k);
    }
    ExchangedElsewhere(s, At(base, size, i), At(base, size, j), size, At(base, size, k), At(base, size, k) + size);
  }

  // ---- the three copies ---------------------------------------------------

  function Overwritten(s: seq<Byte>, at: nat, x: seq<Byte>): (r: seq<Byte>)
    requires at + |x| <= |s|
    ensures |r| == |s|
  {
    s[..at] + x + s[at + |x|..]
  }

  method Memcpy(dst: array<Byte>, d: nat, src: array<Byte>, s: nat, n: nat)
    requires d + n <= dst.Length && s + n <= src.Length
    modifies dst
    ensures dst[..] == Overwritten(old(dst[..]), d, old(src[..])[s..s + n])
  {
    forall k | 0 <= k < n {
      dst[d + k] := src[s + k];
    }
  }

  lemma ThreeCopies(s: seq<Byte>, p: nat, q: nat, size: nat)
    requires p + size <= q && q + size <= |s|
    ensures Overwritten(Overwritten(s, p, s[q..q + size]), q, s[p..p + size]) == Exchanged(s, p, q, size)
  {
  }

  method SwapBytes(mem: array<Byte>, p: nat, q: nat, tmp: array<Byte>)
    requires tmp != mem && p + tmp.Length <= q && q + tmp.Length <= mem.Length
    modifies mem, tmp
    ensures mem[..] == Exchanged(old(mem[..]), p, q, tmp.Length)
  {
    var n := tmp.Length;
    ghost var s := mem[..];
    Memcpy(tmp, 0, mem, p, n);
    assert tmp[..] == s[p..p + n];
    Memcpy(mem, p, mem, q, n);
    Memcpy(mem, q, tmp, 0, n);
    assert s[p..p + n][0..n] == s[p..p + n];
    ThreeCopies(s, p, q, n);
  }

  // ---- what the comparator must be ----------------------------------------

  ghost predicate TotalPreorder(compar: Comparator) {
    && (forall a: Block, b: Block :: compar(a, b) <= 0 || compar(b, a) <= 0)
    && (forall a: Block, b: Block, c: Block :: compar(a, b) <= 0 && compar(b, c) <= 0 ==> compar(a, c) <= 0)
  }

  /** The first `i` blocks are where they belong. */
  ghost predicate Settled(bs: seq<Block>, i: int, compar: Comparator) {
    forall a, b :: 0 <= a < i && a < b < |bs| ==> compar(bs[a], bs[b]) <= 0
  }

  /** Block `i` is no greater than the blocks behind it, up to `j`. */
  ghost predicate Least(bs: seq<Block>, i: nat, j: nat, compar: Comparator)
    requires i < |bs| && j <= |bs|
  {
    forall b :: i < b < j ==> compar(bs[i], bs[b]) <= 0
  }

  lemma SwapKeepsSettled(bs: seq<Block>, i: nat, j: nat, compar: Comparator)
    requires i < j < |bs| && Settled(bs, i, compar)
    ensures Settled(SwapAt(bs, i, j), i, compar)
  {
  }

  lemma ExchangeStep(bs: seq<Block>, i: nat, j: nat, compar: Comparator)
    requires TotalPreorder(compar) && i < j < |bs| && Settled(bs, i, compar) && Least(bs, i, j, compar)
    ensures var cs := if compar(bs[i], bs[j]) > 0 then SwapAt(bs, i, j) else bs;
            Settled(cs, i, compar) && Least(cs, i, j + 1, compar)
  {
    if compar(bs[i], bs[j]) > 0 {
      SwapKeepsSettled(bs, i, j, compar);
      assert compar(bs[j], bs[i]) <= 0;
      forall b | i < b < j ensures compar(bs[j], bs[b]) <= 0 {
        assert compar(bs[i], bs[b]) <= 0;
      }
    }
  }

  lemma SwapIsPermutation(bs: seq<Block>, i: nat, j: nat)
    requires i < |bs| && j < |bs|
    ensures multiset(SwapAt(bs, i, j)) == multiset(bs)
  {
  }

  /** Outside the array of blocks the bytes agree. */
  ghost predicate Outside(s: seq<Byte>, s0: seq<Byte>, base: nat, size: nat, n: nat) {
    |s| == |s0| && At(base, size, n) <= |s|
    && s[..base] == s0[..base] && s[At(base, size, n)..] == s0[At(base, size, n)..]
  }

  /** Only the order of the blocks differs. */
  ghost predicate Reordered(s: seq<Byte>, s0: seq<Byte>, base: nat, size: nat, n: nat) {
    Outside(s, s0, base, size, n) && multiset(Blocks(s, base, size, n)) == multiset(Blocks(s0, base, size, n))
  }

  ghost predicate SettledBytes(s: seq<Byte>, base: nat, size: nat, n: nat, i: nat, compar: Comparator) {
    At(base, size, n) <= |s| && Settled(Blocks(s, base, size, n), i, compar)
  }

  ghost predicate LeastBytes(s: seq<Byte>, base: nat, size: nat, n: nat, i: nat, j: nat, compar: Comparator) {
    At(base, size, n) <= |s| && i < n && j <= n && Least(Blocks(s, base, size, n), i, j, compar)
  }

  /** The bytes after comparing blocks `i` and `j` and exchanging them if out of order. */
  ghost function AfterStep(s: seq<Byte>, base: nat, size: nat, n: nat, i: nat, j: nat, compar: Comparator): (r: seq<Byte>)
    requires At(base, size, n) <= |s| && i < j < n
    ensures |r| == |s|
  {
    ExchangeIsSwap(s, base, size, n, i, j);
    if compar(BlockAt(s, base, size, i), BlockAt(s, base, size, j)) > 0
    then Exchanged(s, At(base, size, i), At(base, size, j), size) else s
  }

  /** What the inner loop keeps, relative to the bytes `s0` it started from. */
  ghost predicate PassInv(s: seq<Byte>, s0: seq<Byte>, base: nat, size: nat, n: nat, i: nat, j: nat, compar: Comparator) {
    && Reordered(s, s0, base, size, n)
    && (TotalPreorder(compar) && SettledBytes(s0, base, size, n, i, compar) ==>
          SettledBytes(s, base, size, n, i, compar) && LeastBytes(s, base, size, n, i, j, compar))
  }

  lemma StepKeepsPass(s: seq<Byte>, s0: seq<Byte>, base: nat, size: nat, n: nat, i: nat, j: nat, compar: Comparator)
    requires At(base, size, n) <= |s| && i < j < n && PassInv(s, s0, base, size, n, i, j, compar)
    ensures PassInv(AfterStep(s, base, size, n, i, j, compar), s0, base, size, n, i, j + 1, compar)
  {
    var bs := Blocks(s, base, size, n);
    ExchangeIsSwap(s, base, size, n, i, j);
    SwapIsPermutation(bs, i, j);
    if TotalPreorder(compar) && SettledBytes(s0, base, size, n, i, compar) {
      ExchangeStep(bs, i, j, compar);
    }
  }

  method CompareAndSwap(mem: array<Byte>, base: nat, ghost nmemb: nat, i: nat, j: nat, compar: Comparator, tmp: array<Byte>)
    requires tmp != mem && At(base, tmp.Length, nmemb) <= mem.Length && i < j < nmemb
    modifies mem, tmp
    ensures mem[..] == AfterStep(old(mem[..]), base, tmp.Length, nmemb, i, j, compar)
  {
    ExchangeIsSwap(mem[..], base, tmp.Length, nmemb, i, j);
    var a, b := At(base, tmp.Length, i), At(base, tmp.Length, j);
    if compar(BlockAt(mem[..], base, tmp.Length, i), BlockAt(mem[..], base, tmp.Length, j)) > 0 {
      SwapBytes(mem, a, b, tmp);
    }
  }

  lemma PassStarts(s: seq<Byte>, base: nat, size: nat, n: nat, i: nat, compar: Comparator)
    requires At(base, size, n) <= |s| && i < n
    ensures PassInv(s, s, base, size, n, i, i + 1, compar)
  {
  }

  lemma PassEnds(s: seq<Byte>, s0: seq<Byte>, base: nat, size: nat, n: nat, i: nat, compar: Comparator)
    requires i < n && PassInv(s, s0, base, size, n, i, n, compar)
    ensures TotalPreorder(compar) && SettledBytes(s0, base, size, n, i, compar) ==> SettledBytes(s, base, size, n, i + 1, compar)
  {
  }

  /** The inner loop: the least of the remaining blocks ends up at `i`. */
  method ExchangePass(mem: array<Byte>, base: nat, nmemb: nat, i: nat, compar: Comparator, tmp: array<Byte>)
    requires tmp != mem && At(base, tmp.Length, nmemb) <= mem.Length && i < nmemb
    modifies mem, tmp
    ensures PassInv(mem[..], old(mem[..]), base, tmp.Length, nmemb, i, nmemb, compar)
  {
    PassStarts(mem[..], base, tmp.Length, nmemb, i, compar);
    var j := i + 1;
    while j < nmemb
      invariant i < j <= nmemb
      invariant PassInv(mem[..], old(mem[..]), base, tmp.Length, nmemb, i, j, compar)
    {
      StepKeepsPass(mem[..], old(mem[..]), base, tmp.Length, nmemb, i, j, compar);
      CompareAndSwap(mem, base, nmemb, i, j, compar, tmp);
      j := j + 1;
    }
  }

  /** In place, on bytes: a null base, a null comparator, no blocks or empty blocks change
      nothing. Otherwise the blocks come out as a permutation of the old ones, no other
      byte changes, and if the comparator is a total preorder they come out sorted. */
  method QsortR(mem: array?<Byte>, base: nat, nmemb: nat, size: nat, compar: Option<Comparator>)
    requires mem != null ==> At(base, size, nmemb) <= mem.Length
    modifies mem
    ensures mem != null ==> Reordered(mem[..], old(mem[..]), base, size, nmemb)
    ensures mem != null && compar.Some? && size > 0 && TotalPreorder(compar.value) ==>
      SettledBytes(mem[..], base, size, nmemb, nmemb, compar.value)
    ensures mem != null && (compar.None? || size == 0) ==> mem[..] == old(mem[..])
  {
    if mem == null || compar.None? || nmemb == 0 || size == 0 {
      return;
    }
    var tmp := new Byte[size](_ => 0);
    var i := 0;
    while i < nmemb - 1
      invariant i <= nmemb - 1
      invariant Reordered(mem[..], old(mem[..]), base, size, nmemb)
      invariant TotalPreorder(compar.value) ==> SettledBytes(mem[..], base, size, nmemb, i, compar.value)
    {
      ghost var s := mem[..];
      ExchangePass(mem, base, nmemb, i, compar.value, tmp);
      PassEnds(mem[..], s, base, size, nmemb, i, compar.value);
      i := i + 1;
    }
  }
}

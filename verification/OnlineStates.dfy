/** Decoding the online bitmap of a peer list (`query_online_states_` in
    rustdesk-master/src/client.rs). */
module OnlineStates {

  /** Bit `i` of the states, counted from the most significant bit of the first byte. */
  predicate Online(states: seq<bv8>, i: nat)
    requires i / 8 < |states|
  {
    (states[i / 8] >> (7 - i % 8)) & 1 == 1
  }

  /** The ids, in order, whose bit has the wanted value. */
  function Select(ids: seq<string>, bits: seq<bool>, wanted: bool): seq<string>
    requires |ids| == |bits|
  {
    if ids == [] then []
    else
      var n := |ids| - 1;
      Select(ids[..n], bits[..n], wanted) + (if bits[n] == wanted then [ids[n]] else [])
  }

  function Bits(states: seq<bv8>, n: nat): (bits: seq<bool>)
    requires n <= 8 * |states|
    ensures |bits| == n && forall i :: 0 <= i < n ==> bits[i] == Online(states, i)
  {
    seq(n, i requires 0 <= i < n => Online(states, i))
  }

  /** The test in the code: a mask with the one bit set. */
  predicate Masked(states: seq<bv8>, i: nat)
    requires i / 8 < |states|
  {
    var bitValue: bv8 := 1 << (7 - i % 8);
    states[i / 8] & bitValue == bitValue
  }

  lemma MaskTest(states: seq<bv8>, i: nat)
    requires i / 8 < |states|
    ensures Masked(states, i) <==> Online(states, i)
  {
  }

  lemma SelectStep(ids: seq<string>, states: seq<bv8>, i: nat, wanted: bool)
    requires i < |ids| && i < 8 * |states|
    ensures Select(ids[..i + 1], Bits(states, i + 1), wanted)
         == Select(ids[..i], Bits(states, i), wanted) + (if Online(states, i) == wanted then [ids[i]] else [])
  {
    assert ids[..i + 1][..i] == ids[..i];
    assert Bits(states, i + 1)[..i] == Bits(states, i);
  }

  datatype Lists = Lists(onlines: seq<string>, offlines: seq<string>) | OutOfBounds

  /** The loop over the ids; indexing past the states the server sent is a panic. */
  method Decode(ids: seq<string>, states: seq<bv8>) returns (r: Lists)
    ensures r.OutOfBounds? <==> |ids| > 8 * |states|
    ensures r.Lists? ==> r.onlines == Select(ids, Bits(states, |ids|), true)
    ensures r.Lists? ==> r.offlines == Select(ids, Bits(states, |ids|), false)
  {
    var onlines, offlines := [], [];
    for i := 0 to |ids|
      invariant i <= 8 * |states|
      invariant onlines == Select(ids[..i], Bits(states, i), true)
      invariant offlines == Select(ids[..i], Bits(states, i), false)
    {
      if i / 8 >= |states| {
        return OutOfBounds;
      }
      SelectStep(ids, states, i, true);
      SelectStep(ids, states, i, false);
      MaskTest(states, i);
      if Masked(states, i) {
        onlines := onlines + [ids[i]];
      } else {
        offlines := offlines + [ids[i]];
      }
    }
    assert ids[..|ids|] == ids;
    return Lists(onlines, offlines);
  }

  // ---- the matching packer ------------------------------------------------

  function BitAt(bits: seq<bool>, i: nat, mask: bv8): bv8 {
    if i < |bits| && bits[i] then mask else 0
  }

  function PackByte(bits: seq<bool>, at: nat): bv8 {
    BitAt(bits, at, 128) | BitAt(bits, at + 1, 64) | BitAt(bits, at + 2, 32) | BitAt(bits, at + 3, 16)
    | BitAt(bits, at + 4, 8) | BitAt(bits, at + 5, 4) | BitAt(bits, at + 6, 2) | BitAt(bits, at + 7, 1)
  }

  /** Most significant bit first, the last byte filled up with zeros. */
  function Pack(bits: seq<bool>): (states: seq<bv8>)
    ensures |states| == (|bits| + 7) / 8
  {
    seq((|bits| + 7) / 8, i requires 0 <= i < (|bits| + 7) / 8 => PackByte(bits, 8 * i))
  }

  lemma PackedBit(bits: seq<bool>, at: nat, k: nat)
    requires k < 8 && at + k < |bits|
    ensures (PackByte(bits, at) >> (7 - k)) & 1 == 1 <==> bits[at + k]
  {
  }

  lemma PackedOnline(bits: seq<bool>, i: nat, j: nat, k: nat)
    requires i == 8 * j + k && k < 8 && i < |bits|
    ensures i / 8 == j && j < |Pack(bits)| && (Online(Pack(bits), i) <==> bits[i])
  {
    assert i / 8 == j && i % 8 == k;
    PackedBit(bits, 8 * j, k);
    assert Pack(bits)[j] == PackByte(bits, 8 * j);
  }

  /** Decoding inverts packing. */
  lemma DecodeInvertsPack(bits: seq<bool>)
    ensures Bits(Pack(bits), |bits|) == bits
  {
    forall i | 0 <= i < |bits| ensures Bits(Pack(bits), |bits|)[i] == bits[i] {
      PackedOnline(bits, i, i / 8, i % 8);
    }
  }

  // ---- the two lists ------------------------------------------------------

  /** Strictly increasing positions of `r`'s elements in `s`. */
  ghost predicate Picks(s: seq<string>, r: seq<string>, at: seq<nat>) {
    |at| == |r| && (forall i :: 0 <= i < |at| ==> at[i] < |s| && s[at[i]] == r[i])
    && (forall i, j :: 0 <= i < j < |at| ==> at[i] < at[j])
  }

  lemma PicksMore(s: seq<string>, r: seq<string>, at: seq<nat>)
    requires s != [] && Picks(s[..|s| - 1], r, at)
    ensures Picks(s, r, at) && Picks(s, r + [s[|s| - 1]], at + [|s| - 1])
  {
  }

  /** Both lists keep the order of the ids, and the positions of each are exactly those
      whose bit has its value: together they are the ids, each once. */
  lemma {:induction false} SelectPositions(ids: seq<string>, bits: seq<bool>, wanted: bool) returns (at: seq<nat>)
    requires |ids| == |bits|
    ensures Picks(ids, Select(ids, bits, wanted), at)
    ensures forall i :: 0 <= i < |ids| ==> (i in at <==> bits[i] == wanted)
  {
    if ids == [] {
      at := [];
    } else {
      var n := |ids| - 1;
      var before := SelectPositions(ids[..n], bits[..n], wanted);
      forall i | 0 <= i < n ensures i in before <==> bits[i] == wanted {
        assert bits[..n][i] == bits[i];
      }
      at := if bits[n] == wanted then before + [n] else before;
      PicksMore(ids, Select(ids[..n], bits[..n], wanted), before);
    }
  }

  lemma OneMore(a: seq<string>, b: seq<string>, id: string)
    ensures multiset(a + [id]) + multiset(b) == multiset(a) + multiset(b) + multiset{id}
    ensures multiset(a) + multiset(b + [id]) == multiset(a) + multiset(b) + multiset{id}
    ensures a + [] == a && b + [] == b
  {
  }

  lemma {:induction false} ListsPartition(ids: seq<string>, bits: seq<bool>)
    requires |ids| == |bits|
    ensures multiset(Select(ids, bits, true)) + multiset(Select(ids, bits, false)) == multiset(ids)
  {
    if ids != [] {
      var n := |ids| - 1;
      ListsPartition(ids[..n], bits[..n]);
      assert ids == ids[..n] + [ids[n]];
      OneMore(Select(ids[..n], bits[..n], true), Select(ids[..n], bits[..n], false), ids[n]);
    }
  }
}

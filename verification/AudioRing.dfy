/** The bounded ring buffer behind the audio jitter buffer, with the operations
    rustdesk-master/src/client.rs uses of it. */
module AudioRing {
  import opened Wrappers

  class Ring<T> {
    const data: array<T>
    var start: nat
    var len: nat

    ghost predicate Valid()
      reads this
    {
      data.Length > 0 && start < data.Length && len <= data.Length
    }

    /** Where element `i` of the queue is stored. */
    function Slot(i: nat): nat
      reads this
    {
      if start + i < data.Length then start + i else start + i - data.Length
    }

    /** The queue, oldest element first. */
    function Contents(): (s: seq<T>)
      requires Valid()
      reads this, data
      ensures |s| == len
    {
      seq(len, i requires 0 <= i < len && Valid() reads this, data => data[Slot(i)])
    }

    constructor (capacity: nat, silence: T)
      requires capacity > 0
      ensures Valid() && fresh(data) && data.Length == capacity && Contents() == []
    {
      data := new T[capacity](_ => silence);
      start, len := 0, 0;
    }

    /** Drops the oldest `n` elements. */
    method Skip(n: nat)
      requires Valid() && n <= len
      modifies this`start, this`len
      ensures Valid() && Contents() == old(Contents())[n..]
    {
      start := Slot(n);
      len := len - n;
    }

    method Push(x: T)
      requires Valid() && len < data.Length
      modifies this`len, data
      ensures Valid() && Contents() == old(Contents()) + [x]
    {
      data[Slot(len)] := x;
      len := len + 1;
    }

    /** Makes room by dropping the oldest elements, then appends what fits of the end of
        `elems`. */
    method PushSliceOverwrite(elems: seq<T>)
      requires Valid()
      modifies this`start, this`len, data
      ensures Valid() && Contents() == LastOf(old(Contents()) + elems, data.Length)
    {
      ghost var q := Contents();
      var vacant := data.Length - len;
      if |elems| > vacant {
        Skip(if |elems| - vacant < len then |elems| - vacant else len);
      }
      vacant := data.Length - len;
      var from := if |elems| > vacant then |elems| - vacant else 0;
      ghost var kept := Contents();
      var k := from;
      while k < |elems|
        invariant from <= k <= |elems| && Valid()
        invariant Contents() == kept + elems[from..k]
        invariant |kept| + |elems| - from <= data.Length
      {
        Push(elems[k]);
        assert elems[from..k + 1] == elems[from..k] + [elems[k]];
        k := k + 1;
      }
      assert elems[from..|elems|] == elems[from..];
      KeptIsLast(q, kept, elems, from, data.Length);
    }

    lemma KeptIsLast(q: seq<T>, kept: seq<T>, elems: seq<T>, from: nat, cap: nat)
      requires |q| <= cap && from <= |elems|
      requires var excess := if |elems| > cap - |q| then |elems| - (cap - |q|) else 0;
               var dropped := if excess < |q| then excess else |q|;
               kept == q[dropped..] && from == excess - dropped
      ensures kept + elems[from..] == LastOf(q + elems, cap)
    {
    }

    /** Removes and returns the oldest `n` elements. */
    method PopSlice(n: nat) returns (out: seq<T>)
      requires Valid() && n <= len
      modifies this`start, this`len
      ensures Valid() && out == old(Contents())[..n] && Contents() == old(Contents())[n..]
    {
      out := [];
      var k := 0;
      while k < n
        invariant k <= n && out == Contents()[..k]
      {
        out := out + [data[Slot(k)]];
        k := k + 1;
      }
      Skip(n);
    }
  }
}

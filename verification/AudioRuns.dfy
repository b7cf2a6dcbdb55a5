/** Runs of the jitter buffer under any interleaving of appends, shrinks, playback and
    resizes. */
module AudioRuns {
  import opened Wrappers
  import opened AudioRing
  import opened AudioBuffer

  type Histogram = h: seq<nat> | |h| == BUCKETS witness seq(BUCKETS, _ => 0)

  /** One critical section under the ring's lock. */
  datatype Op<T> = Append(pcm: seq<T>) | Shrink(h: Histogram) | Play(n: nat) | Resize(capacity: nat)

  /** What became of a sample that has left the queue. */
  datatype Fate<T> = Played(x: T) | Dropped(x: T)

  datatype Audio<T> = Audio(queue: seq<T>, capacity: nat, log: seq<Fate<T>>)

  function Least(a: nat, b: nat): nat {
    if a < b then a else b
  }

  function DropAll<T>(s: seq<T>): (r: seq<Fate<T>>)
    ensures |r| == |s|
  {
    seq(|s|, i requires 0 <= i < |s| => Dropped(s[i]))
  }

  function PlayAll<T>(s: seq<T>): (r: seq<Fate<T>>)
    ensures |r| == |s|
  {
    seq(|s|, i requires 0 <= i < |s| => Played(s[i]))
  }

  /** The effect of one critical section, as the methods of `AudioBuffer` state it. */
  function Step<T>(a: Audio<T>, op: Op<T>): Audio<T> {
    match op
    case Append(pcm) =>
      var all := a.queue + pcm;
      var kept := LastOf(all, a.capacity);
      Audio(kept, a.capacity, a.log + DropAll(all[..|all| - |kept|]))
    case Shrink(h) =>
      var d := DropFor(h, a.capacity, |a.queue|);
      Audio(a.queue[d..], a.capacity, a.log + DropAll(a.queue[..d]))
    case Play(n) =>
      var k := Least(n, |a.queue|);
      Audio(a.queue[k..], a.capacity, a.log + PlayAll(a.queue[..k]))
    case Resize(capacity) =>
      if capacity == a.capacity then a else Audio([], capacity, a.log + DropAll(a.queue))
  }

  function Run<T>(a: Audio<T>, ops: seq<Op<T>>): Audio<T> {
    if ops == [] then a else Step(Run(a, ops[..|ops| - 1]), ops[|ops| - 1])
  }

  /** Every sample appended in a run. */
  function Pushed<T>(ops: seq<Op<T>>): seq<T> {
    if ops == [] then []
    else
      var op := ops[|ops| - 1];
      Pushed(ops[..|ops| - 1]) + (if op.Append? then op.pcm else [])
  }

  /** The samples one operation hands to the speaker. */
  function HeardNow<T>(a: Audio<T>, op: Op<T>): seq<T> {
    if op.Play? then a.queue[..Least(op.n, |a.queue|)] else []
  }

  function Heard<T>(a: Audio<T>, ops: seq<Op<T>>): seq<T> {
    if ops == [] then []
    else
      var init := ops[..|ops| - 1];
      Heard(a, init) + HeardNow(Run(a, init), ops[|ops| - 1])
  }

  function Samples<T>(log: seq<Fate<T>>): (r: seq<T>)
    ensures |r| == |log|
  {
    seq(|log|, i requires 0 <= i < |log| => log[i].x)
  }

  function PlayedOnly<T>(log: seq<Fate<T>>): seq<T> {
    if log == [] then []
    else
      var f := log[|log| - 1];
      PlayedOnly(log[..|log| - 1]) + (if f.Played? then [f.x] else [])
  }

  lemma {:induction false} PlayedOnlyConcat<T>(a: seq<Fate<T>>, b: seq<Fate<T>>)
    ensures PlayedOnly(a + b) == PlayedOnly(a) + PlayedOnly(b)
  {
    if b == [] {
      assert a + b == a;
    } else {
      assert (a + b)[..|a + b| - 1] == a + b[..|b| - 1];
      PlayedOnlyConcat(a, b[..|b| - 1]);
    }
  }

  lemma {:induction false} PlayedOnlyAll<T>(s: seq<T>)
    ensures PlayedOnly(PlayAll(s)) == s && PlayedOnly(DropAll(s)) == []
  {
    if s != [] {
      var n := |s| - 1;
      PlayedOnlyAll(s[..n]);
      assert PlayAll(s)[..n] == PlayAll(s[..n]) && DropAll(s)[..n] == DropAll(s[..n]);
      assert s == s[..n] + [s[n]];
    }
  }

  ghost predicate Accounted<T>(a: Audio<T>, op: Op<T>, b: Audio<T>) {
    && Samples(b.log) + b.queue == Samples(a.log) + a.queue + (if op.Append? then op.pcm else [])
    && PlayedOnly(b.log) == PlayedOnly(a.log) + HeardNow(a, op)
    && |b.queue| <= b.capacity
  }

  lemma SamplesConcat<T>(log: seq<Fate<T>>, more: seq<Fate<T>>, out: seq<T>)
    requires |more| == |out| && forall i :: 0 <= i < |out| ==> more[i].x == out[i]
    ensures Samples(log + more) == Samples(log) + out
  {
  }

  lemma DropAccounts<T>(log: seq<Fate<T>>, out: seq<T>, rest: seq<T>)
    ensures Samples(log + DropAll(out)) + rest == Samples(log) + (out + rest)
    ensures PlayedOnly(log + DropAll(out)) == PlayedOnly(log)
  {
    PlayedOnlyConcat(log, DropAll(out));
    PlayedOnlyAll(out);
    SamplesConcat(log, DropAll(out), out);
    assert Samples(log) + out + rest == Samples(log) + (out + rest);
  }

  lemma PlayAccounts<T>(log: seq<Fate<T>>, out: seq<T>, rest: seq<T>)
    ensures Samples(log + PlayAll(out)) + rest == Samples(log) + (out + rest)
    ensures PlayedOnly(log + PlayAll(out)) == PlayedOnly(log) + out
  {
    PlayedOnlyConcat(log, PlayAll(out));
    PlayedOnlyAll(out);
    SamplesConcat(log, PlayAll(out), out);
    assert Samples(log) + out + rest == Samples(log) + (out + rest);
  }

  lemma AppendAccounts<T>(a: Audio<T>, pcm: seq<T>)
    ensures Accounted(a, Append(pcm), Step(a, Append(pcm)))
  {
    var all := a.queue + pcm;
    var kept := LastOf(all, a.capacity);
    var out := all[..|all| - |kept|];
    DropAccounts(a.log, out, kept);
    assert out + kept == all;
    assert Samples(a.log) + (a.queue + pcm) == Samples(a.log) + a.queue + pcm;
  }

  lemma CutAccounts<T>(a: Audio<T>, op: Op<T>)
    requires |a.queue| <= a.capacity && (op.Shrink? || op.Play?)
    ensures Accounted(a, op, Step(a, op))
  {
    var k := if op.Shrink? then DropFor(op.h, a.capacity, |a.queue|) else Least(op.n, |a.queue|);
    assert a.queue[..k] + a.queue[k..] == a.queue;
    if op.Shrink? {
      DropAccounts(a.log, a.queue[..k], a.queue[k..]);
    } else {
      PlayAccounts(a.log, a.queue[..k], a.queue[k..]);
    }
  }

  /** The accounting of one step: what leaves the queue is logged, in order, and nothing
      else changes. */
  lemma StepAccounts<T>(a: Audio<T>, op: Op<T>)
    requires |a.queue| <= a.capacity
    ensures Accounted(a, op, Step(a, op))
  {
    match op
    case Append(pcm) => AppendAccounts(a, pcm);
    case Shrink(_) => CutAccounts(a, op);
    case Play(_) => CutAccounts(a, op);
    case Resize(_) =>
      DropAccounts(a.log, a.queue, []);
      assert a.queue + [] == a.queue;
  }

  /** The FIFO refinement: in every run every sample pushed is played, dropped or still
      queued, exactly once and in the order it was pushed; what is heard is what was
      played; and the queue never exceeds its capacity. */
  lemma {:induction false} QueueIsFifo<T>(capacity: nat, ops: seq<Op<T>>)
    ensures var a := Run(Audio([], capacity, []), ops);
            && Samples(a.log) + a.queue == Pushed(ops)
            && PlayedOnly(a.log) == Heard(Audio([], capacity, []), ops)
            && |a.queue| <= a.capacity
  {
    if ops != [] {
      var init := ops[..|ops| - 1];
      QueueIsFifo(capacity, init);
      StepAccounts(Run(Audio([], capacity, []), init), ops[|ops| - 1]);
    }
  }

  // ---- stereo -------------------------------------------------------------

  /** Whole left-right frames, left first. */
  predicate Framed<T>(s: seq<T>, channel: T -> nat) {
    |s| % 2 == 0 && forall i :: 0 <= i < |s| ==> channel(s[i]) == i % 2
  }

  /** Operations as two channels call them: whole frames in, an even number out, and a
      capacity of three seconds of some rate. */
  predicate Stereo<T>(op: Op<T>, channel: T -> nat) {
    match op
    case Append(pcm) => Framed(pcm, channel)
    case Shrink(_) => true
    case Play(n) => n % 2 == 0
    case Resize(capacity) => capacity % 6 == 0
  }

  lemma EvenSum(x: int, y: int)
    requires x % 2 == 0 && y % 2 == 0
    ensures (x + y) % 2 == 0
  {
  }

  lemma ParityShift(n: int, i: int)
    requires n % 2 == 0
    ensures (i - n) % 2 == i % 2
  {
    var m := n / 2;
    assert n == 2 * m;
  }

  lemma FramedCut<T>(s: seq<T>, k: nat, channel: T -> nat)
    requires Framed(s, channel) && k <= |s| && k % 2 == 0
    ensures Framed(s[..k], channel) && Framed(s[k..], channel)
  {
    forall i | 0 <= i < |s[k..]| ensures channel(s[k..][i]) == i % 2 {
      assert s[k..][i] == s[k + i];
    }
  }

  lemma FramedConcat<T>(s: seq<T>, t: seq<T>, channel: T -> nat)
    requires Framed(s, channel) && Framed(t, channel)
    ensures Framed(s + t, channel)
  {
    forall i | 0 <= i < |s + t| ensures channel((s + t)[i]) == i % 2 {
      if i < |s| {
        assert (s + t)[i] == s[i];
      } else {
        assert (s + t)[i] == t[i - |s|];
        ParityShift(|s|, i);
      }
    }
    EvenSum(|s|, |t|);
  }

  ghost predicate StereoInv<T>(a: Audio<T>, channel: T -> nat) {
    Framed(a.queue, channel) && a.capacity % 6 == 0 && |a.queue| <= a.capacity
  }

  lemma ExcessEven(n: nat, capacity: nat)
    requires n % 2 == 0 && capacity % 6 == 0
    ensures (n - (if n < capacity then n else capacity)) % 2 == 0
  {
  }

  lemma AppendKeepsFrames<T>(a: Audio<T>, pcm: seq<T>, channel: T -> nat)
    requires StereoInv(a, channel) && Framed(pcm, channel)
    ensures Framed(Step(a, Append(pcm)).queue, channel) && |Step(a, Append(pcm)).queue| <= a.capacity
    ensures (|Step(a, Append(pcm)).log| - |a.log|) % 2 == 0
  {
    var all := a.queue + pcm;
    FramedConcat(a.queue, pcm, channel);
    var k := |all| - |LastOf(all, a.capacity)|;
    ExcessEven(|all|, a.capacity);
    FramedCut(all, k, channel);
  }

  lemma StepKeepsFrames<T>(a: Audio<T>, op: Op<T>, channel: T -> nat)
    requires StereoInv(a, channel) && Stereo(op, channel)
    ensures StereoInv(Step(a, op), channel) && (|Step(a, op).log| - |a.log|) % 2 == 0
    ensures Framed(HeardNow(a, op), channel)
  {
    match op
    case Append(pcm) => AppendKeepsFrames(a, pcm, channel);
    case Shrink(h) => FramedCut(a.queue, DropFor(h, a.capacity, |a.queue|), channel);
    case Play(n) => FramedCut(a.queue, Least(n, |a.queue|), channel);
    case Resize(_) =>
  }

  predicate AllStereo<T>(ops: seq<Op<T>>, channel: T -> nat) {
    forall i :: 0 <= i < |ops| ==> Stereo(ops[i], channel)
  }

  /** Whole frames so far, in the queue and at the speaker, and an even number gone. */
  ghost predicate StereoSoFar<T>(a: Audio<T>, b: Audio<T>, heard: seq<T>, channel: T -> nat) {
    StereoInv(b, channel) && (|b.log| - |a.log|) % 2 == 0 && Framed(heard, channel)
  }

  lemma StereoOneMore<T>(a: Audio<T>, b: Audio<T>, heard: seq<T>, op: Op<T>, channel: T -> nat)
    requires StereoSoFar(a, b, heard, channel) && Stereo(op, channel)
    ensures StereoSoFar(a, Step(b, op), heard + HeardNow(b, op), channel)
  {
    StepKeepsFrames(b, op, channel);
    FramedConcat(heard, HeardNow(b, op), channel);
    EvenSum(|Step(b, op).log| - |b.log|, |b.log| - |a.log|);
  }

  /** Stereo never swaps channels: in every run the queue and everything heard consist of
      whole frames, left first, and every drop and pop removes an even number of samples. */
  lemma {:induction false} ChannelsNeverSwap<T>(a: Audio<T>, ops: seq<Op<T>>, channel: T -> nat)
    requires StereoInv(a, channel) && AllStereo(ops, channel)
    ensures StereoSoFar(a, Run(a, ops), Heard(a, ops), channel)
  {
    if ops != [] {
      var n := |ops| - 1;
      ChannelsNeverSwap(a, ops[..n], channel);
      StereoOneMore(a, Run(a, ops[..n]), Heard(a, ops[..n]), ops[n], channel);
    }
  }

  // ---- a resize between formats -------------------------------------------

  /** The newest `n` samples of a queue lie left and right where a reader of whole frames
      expects them. */
  predicate NewestAligned<T>(q: seq<T>, n: nat, channel: T -> nat) {
    forall i :: |q| - n <= i < |q| && i >= 0 ==> channel(q[i]) == i % 2
  }

  lemma AlignedExactly<T>(front: seq<T>, frame: seq<T>, channel: T -> nat)
    requires Framed(frame, channel) && frame != []
    ensures NewestAligned(front + frame, |frame|, channel) <==> |front| % 2 == 0
  {
    var q := front + frame;
    forall i | |front| <= i < |q| ensures channel(q[i]) == (i - |front|) % 2 {
      assert q[i] == frame[i - |front|];
    }
    if |front| % 2 == 0 {
      forall i | |front| <= i < |q| ensures channel(q[i]) == i % 2 {
        ParityShift(|front|, i);
      }
    } else {
      assert channel(q[|front|]) == 0;
    }
  }

  /** Stereo frames appended after a resize come out unswapped exactly when the resize
      emptied the queue, the queue held an even number of samples, or the frames overflow
      it: a resize that keeps the capacity keeps the samples of the old format. */
  lemma ResizeAlignsExactly<T>(a: Audio<T>, capacity: nat, frame: seq<T>, channel: T -> nat)
    requires capacity % 2 == 0 && |a.queue| <= a.capacity
    requires Framed(frame, channel) && 0 < |frame| <= capacity
    ensures var b := Step(Step(a, Resize(capacity)), Append(frame));
            && |b.queue| >= |frame|
            && (NewestAligned(b.queue, |frame|, channel) <==>
                  capacity != a.capacity || |a.queue| % 2 == 0 || |a.queue| + |frame| > capacity)
  {
    var q := if capacity == a.capacity then a.queue else [];
    AppendAligns(q, capacity, frame, channel);
    assert Step(Step(a, Resize(capacity)), Append(frame)).queue == LastOf(q + frame, capacity);
  }

  lemma KeptInFront<T>(q: seq<T>, frame: seq<T>, capacity: nat) returns (front: seq<T>)
    requires |q| <= capacity && |frame| <= capacity
    ensures LastOf(q + frame, capacity) == front + frame
    ensures |front| == if |q| + |frame| > capacity then capacity - |frame| else |q|
  {
    front := q[if |q| + |frame| > capacity then |q| + |frame| - capacity else 0..];
  }

  lemma AppendAligns<T>(q: seq<T>, capacity: nat, frame: seq<T>, channel: T -> nat)
    requires capacity % 2 == 0 && |q| <= capacity && Framed(frame, channel) && 0 < |frame| <= capacity
    ensures var kept := LastOf(q + frame, capacity);
            && |kept| >= |frame|
            && (NewestAligned(kept, |frame|, channel) <==> |q| % 2 == 0 || |q| + |frame| > capacity)
  {
    var front := KeptInFront(q, frame, capacity);
    AlignedExactly(front, frame, channel);
    Difference(capacity, |frame|);
  }

  lemma Difference(x: int, y: int)
    requires x % 2 == 0 && y % 2 == 0
    ensures (x - y) % 2 == 0
  {
  }

  /** Half a frame of mono swaps the channels of the stereo frame behind it. */
  lemma SameCapacityKeepsHalfFrame<T>(a: Audio<T>, frame: seq<T>, channel: T -> nat)
    requires |a.queue| == 1 && a.capacity >= 3 && a.capacity % 2 == 0 && Framed(frame, channel) && |frame| == 2
    ensures var b := Step(Step(a, Resize(a.capacity)), Append(frame));
            |b.queue| == 3 && channel(b.queue[1]) == 0 && channel(b.queue[2]) == 1
            && !NewestAligned(b.queue, 2, channel)
  {
    ResizeAlignsExactly(a, a.capacity, frame, channel);
  }

  // ---- the object does what the runs say ----------------------------------

  /** A call of one of the object's methods, each one critical section. */
  datatype Call<T> =
    | AppendCall(pcm: seq<T>)
    | ShrinkCall(having: nat, now: int)
    | PlayCall(n: nat)
    | ResizeCall(rate: nat, channels: nat)
  {
    predicate Valid() {
      ResizeCall? ==> rate > 0 && channels > 0
    }
  }

  /** The operation a call amounts to; what a shrink drops is for its histogram to say. */
  ghost predicate Performs<T>(call: Call<T>, op: Op<T>) {
    match call
    case AppendCall(pcm) => op == Append(pcm)
    case ShrinkCall(_, _) => op.Shrink?
    case PlayCall(n) => op == Play(n)
    case ResizeCall(rate, channels) => op == Resize(3 * (rate * channels))
  }

  /** One step of the runs, on what the object has: queue, capacity and speaker. */
  ghost predicate Becomes<T>(q: seq<T>, cap: nat, op: Op<T>, q': seq<T>, cap': nat, heard: seq<T>) {
    var a := Audio(q, cap, []);
    Step(a, op).queue == q' && Step(a, op).capacity == cap' && HeardNow(a, op) == heard
  }

  const NO_LEVELS: Histogram := seq(BUCKETS, _ => 0)

  lemma NothingCounted(cap: nat, having: nat)
    ensures DropFor(NO_LEVELS, cap, having) == 0
  {
    PeakIsFirstFullest(NO_LEVELS, BUCKETS);
  }

  method PerformAppend<T>(b: AudioBuffer<T>, pcm: seq<T>)
    requires b.Valid()
    modifies b.ring, b.ring.data
    ensures b.Valid() && b.ring == old(b.ring)
    ensures Becomes(old(b.Queue()), old(b.ring.data.Length), Append(pcm), b.Queue(), b.ring.data.Length, [])
  {
    var _ := b.AppendPcm2(pcm);
  }

  method PerformShrink<T>(b: AudioBuffer<T>, having: nat, now: int) returns (ghost h: Histogram)
    requires b.Valid()
    modifies b, b.last, b.histogram, b.ring
    ensures b.Valid() && b.ring == old(b.ring)
    ensures Becomes(old(b.Queue()), old(b.ring.data.Length), Shrink(h), b.Queue(), b.ring.data.Length, [])
  {
    ghost var passes := b.last.tms != 0 && now >= b.last.tms + 12000;
    ghost var q, all := b.Queue(), b.levels + [Level(having, b.perSecond)];
    b.TryShrink(having, now);
    if passes {
      h := PassFound(q, b.Queue(), all, b.ring.data.Length);
    } else {
      h := NO_LEVELS;
      NoPass(q, b.ring.data.Length);
    }
  }

  lemma PassFound<T>(q: seq<T>, q': seq<T>, levels: seq<Level>, cap: nat) returns (h: Histogram)
    requires exists h :: Counts(h, levels) && q' == q[DropFor(h, cap, |q|)..]
    ensures Becomes(q, cap, Shrink(h), q', cap, [])
  {
    var counted :| Counts(counted, levels) && q' == q[DropFor(counted, cap, |q|)..];
    h := counted;
  }

  lemma NoPass<T>(q: seq<T>, cap: nat)
    ensures Becomes(q, cap, Shrink(NO_LEVELS), q, cap, [])
  {
    NothingCounted(cap, |q|);
  }

  method PerformPlay<T>(b: AudioBuffer<T>, n: nat, silence: T) returns (heard: seq<T>)
    requires b.Valid()
    modifies b.ring
    ensures b.Valid() && b.ring == old(b.ring)
    ensures Becomes(old(b.Queue()), old(b.ring.data.Length), Play(n), b.Queue(), b.ring.data.Length, heard)
  {
    var data := new T[n](_ => silence);
    var k := if b.ring.len < n then b.ring.len else n;
    b.Play(data, silence);
    heard := data[..k];
  }

  method PerformResize<T>(b: AudioBuffer<T>, rate: nat, channels: nat, silence: T)
    requires b.Valid() && rate > 0 && channels > 0
    modifies b
    ensures b.Valid()
    ensures Becomes(old(b.Queue()), old(b.ring.data.Length), Resize(3 * (rate * channels)), b.Queue(), b.ring.data.Length, [])
    ensures b.ring == old(b.ring) || (fresh(b.ring) && fresh(b.ring.data))
  {
    b.Resize(rate, channels, silence);
  }

  /** Every method of the object is one step of the runs above. */
  method Perform<T>(b: AudioBuffer<T>, call: Call<T>, silence: T) returns (heard: seq<T>, ghost op: Op<T>)
    requires b.Valid() && call.Valid()
    modifies b, b.last, b.histogram, b.ring, b.ring.data
    ensures b.Valid() && Performs(call, op)
    ensures Becomes(old(b.Queue()), old(b.ring.data.Length), op, b.Queue(), b.ring.data.Length, heard)
    ensures b.ring == old(b.ring) || (fresh(b.ring) && fresh(b.ring.data))
  {
    heard := [];
    match call {
      case AppendCall(pcm) =>
        op := Append(pcm);
        PerformAppend(b, pcm);
      case ShrinkCall(having, now) =>
        ghost var h := PerformShrink(b, having, now);
        op := Shrink(h);
      case PlayCall(n) =>
        op := Play(n);
        heard := PerformPlay(b, n, silence);
      case ResizeCall(rate, channels) =>
        op := Resize(3 * (rate * channels));
        PerformResize(b, rate, channels, silence);
    }
  }

  ghost predicate AllPerformed<T>(calls: seq<Call<T>>, ops: seq<Op<T>>) {
    |ops| == |calls| && forall i :: 0 <= i < |calls| ==> Performs(calls[i], ops[i])
  }

  /** Every sample given to the object. */
  function Given<T>(calls: seq<Call<T>>): seq<T> {
    if calls == [] then []
    else
      var call := calls[|calls| - 1];
      Given(calls[..|calls| - 1]) + (if call.AppendCall? then call.pcm else [])
  }

  lemma {:induction false} GivenIsPushed<T>(calls: seq<Call<T>>, ops: seq<Op<T>>)
    requires AllPerformed(calls, ops)
    ensures Given(calls) == Pushed(ops)
  {
    if calls != [] {
      var n := |calls| - 1;
      GivenIsPushed(calls[..n], ops[..n]);
      assert Performs(calls[n], ops[n]);
    }
  }

  lemma RunBecomes<T>(a: Audio<T>, ops: seq<Op<T>>, op: Op<T>, q: seq<T>, cap: nat, heard: seq<T>)
    requires Becomes(Run(a, ops).queue, Run(a, ops).capacity, op, q, cap, heard)
    ensures Run(a, ops + [op]).queue == q && Run(a, ops + [op]).capacity == cap
    ensures Heard(a, ops + [op]) == Heard(a, ops) + heard
  {
    assert (ops + [op])[..|ops + [op]| - 1] == ops;
  }

  lemma PerformedMore<T>(calls: seq<Call<T>>, ops: seq<Op<T>>, k: nat, op: Op<T>)
    requires k < |calls| && AllPerformed(calls[..k], ops) && Performs(calls[k], op)
    ensures AllPerformed(calls[..k + 1], ops + [op])
  {
    forall i | 0 <= i <= k ensures Performs(calls[..k + 1][i], (ops + [op])[i]) {
      assert i < k ==> calls[..k + 1][i] == calls[..k][i];
    }
  }

  /** What a run from an empty queue comes to. */
  lemma RunAccounts<T>(capacity: nat, calls: seq<Call<T>>, ops: seq<Op<T>>)
    requires AllPerformed(calls, ops)
    ensures var start := Audio([], capacity, []);
            var a := Run(start, ops);
            Samples(a.log) + a.queue == Given(calls) && PlayedOnly(a.log) == Heard(start, ops)
  {
    GivenIsPushed(calls, ops);
    QueueIsFifo(capacity, ops);
  }

  /** A whole run of the object, from an empty queue: what it was given is, in order, what
      `log` says was played or dropped and then what is queued, and what came out of the
      speaker is what was played. */
  method PerformAll<T>(b: AudioBuffer<T>, calls: seq<Call<T>>, silence: T)
    returns (heard: seq<T>, ghost log: seq<Fate<T>>)
    requires b.Valid() && b.Queue() == [] && forall i :: 0 <= i < |calls| ==> calls[i].Valid()
    modifies b, b.last, b.histogram, b.ring, b.ring.data
    ensures b.Valid() && Samples(log) + b.Queue() == Given(calls) && PlayedOnly(log) == heard
  {
    ghost var start: Audio<T> := Audio([], b.ring.data.Length, []);
    ghost var ops: seq<Op<T>> := [];
    heard := [];
    for k := 0 to |calls|
      invariant b.ring == old(b.ring) || (fresh(b.ring) && fresh(b.ring.data))
      invariant b.Valid() && AllPerformed(calls[..k], ops) && heard == Heard(start, ops)
      invariant Run(start, ops).queue == b.Queue() && Run(start, ops).capacity == b.ring.data.Length
    {
      var now, op := Perform(b, calls[k], silence);
      RunBecomes(start, ops, op, b.Queue(), b.ring.data.Length, now);
      PerformedMore(calls, ops, k, op);
      heard := heard + now;
      ops := ops + [op];
    }
    assert calls[..|calls|] == calls;
    RunAccounts(start.capacity, calls, ops);
    log := Run(start, ops).log;
  }
}

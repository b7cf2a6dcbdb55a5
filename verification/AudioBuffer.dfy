/** The audio jitter buffer: overflow dropping and the histogram-driven shrinker
    (`AudioBuffer` in rustdesk-master/src/client.rs), and the playback callback. */
module AudioBuffer {
  import opened Wrappers
  import opened AudioRing

  const AUDIO_BUFFER_MS: nat := 3000
  const PASS_MS: int := 12000
  const BUCKETS: nat := 30
  const N: nat := 4

  // ---- the shrinker's arithmetic ------------------------------------------

  /** The 100 ms bucket of a buffer level, the last one open-ended. */
  function Bucket(having: nat, perSecond: nat): (i: nat)
    requires perSecond > 0
    ensures i < BUCKETS && InBucket(having, perSecond, i)
  {
    if having * 10 / perSecond > 29 then 29 else having * 10 / perSecond
  }

  /** From `b` up to `b + 1` tenths of a second, or from 2.9 seconds on. */
  predicate InBucket(having: nat, perSecond: nat, b: nat) {
    b * perSecond <= having * 10 && (b < 29 ==> having * 10 < (b + 1) * perSecond)
  }

  /** Number of empty buckets before the first filled one. */
  function EmptyRun(h: seq<nat>, i: nat): (z: nat)
    requires |h| == BUCKETS && i <= BUCKETS
    ensures z <= i
    ensures forall k :: 0 <= k < z ==> h[k] == 0
    ensures z < i ==> h[z] > 0
  {
    if i == 0 then 0
    else
      var z := EmptyRun(h, i - 1);
      if h[i - 1] == 0 && z == i - 1 then i else z
  }

  /** What the loop leaves in `max` after `i` buckets. Bucket 0 is cleared before it is
      compared with, so it never wins. */
  function Peak(h: seq<nat>, i: nat): (m: nat)
    requires |h| == BUCKETS && i <= BUCKETS
    ensures m < BUCKETS && (m > 0 ==> m < i)
  {
    if i <= 1 then 0
    else
      var m := Peak(h, i - 1);
      if h[i - 1] > Weight(h, m) then i - 1 else m
  }

  function Weight(h: seq<nat>, m: nat): nat
    requires m < |h|
  {
    if m == 0 then 0 else h[m]
  }

  /** `x` rounded up to an even number. */
  function RoundUpEven(x: nat): (r: nat)
    ensures r % 2 == 0 && x <= r <= x + 1
  {
    (x + 1) / 2 * 2
  }

  /** A quarter of `t` thirtieths of the capacity, as an even number. */
  function Quarter(cap: nat, t: nat): (r: nat)
    ensures r % 2 == 0 && cap * t - 120 < 120 * r <= cap * t + 120
  {
    SkipInRange(cap * t);
    RoundUpEven(cap * t / (30 * N))
  }

  lemma SkipInRange(x: nat)
    ensures x - 120 < 120 * RoundUpEven(x / 120) <= x + 120
  {
    var q := x / 120;
    assert 120 * q <= x < 120 * q + 120;
  }

  /** The number of samples a pass asks to skip. */
  function SkipFor(h: seq<nat>, cap: nat): nat
    requires |h| == BUCKETS
  {
    var zero := EmptyRun(h, BUCKETS) * 2 / 3;
    var max := Peak(h, BUCKETS);
    if max < 6 then 0
    else Quarter(cap, if max > zero * N then zero * N else max)
  }

  /** The number of samples a pass drops from a queue of `having`. */
  function DropFor(h: seq<nat>, cap: nat, having: nat): (d: nat)
    requires |h| == BUCKETS
    ensures d <= having && (d > 0 ==> 3 * d < having) && d % 2 == 0
  {
    var skip := SkipFor(h, cap);
    if having > skip * 3 && skip > 0 then skip else 0
  }

  /** A level recorded since the last pass, with the samples per second of that moment. */
  datatype Level = Level(having: nat, perSecond: nat)

  predicate LevelsValid(levels: seq<Level>) {
    forall i :: 0 <= i < |levels| ==> levels[i].perSecond > 0
  }

  function Count(levels: seq<Level>, bucket: nat): nat
    requires LevelsValid(levels)
  {
    if levels == [] then 0
    else
      var n := |levels| - 1;
      Count(levels[..n], bucket) + (if Bucket(levels[n].having, levels[n].perSecond) == bucket then 1 else 0)
  }

  ghost predicate Counts(h: seq<nat>, levels: seq<Level>) {
    |h| == BUCKETS && LevelsValid(levels) && forall b :: 0 <= b < BUCKETS ==> h[b] == Count(levels, b)
  }

  lemma {:induction false} CountPositive(levels: seq<Level>, i: nat)
    requires LevelsValid(levels) && i < |levels|
    ensures Count(levels, Bucket(levels[i].having, levels[i].perSecond)) > 0
  {
    var n := |levels| - 1;
    if i < n {
      CountPositive(levels[..n], i);
    }
  }

  lemma Scale(perSecond: nat, zero: nat, level: nat)
    requires perSecond > 0 && zero <= level * 10 / perSecond
    ensures perSecond * zero <= level * 10
  {
    var q := level * 10 / perSecond;
    assert perSecond * q <= level * 10;
    assert perSecond * zero <= perSecond * q;
  }

  lemma SkipBound(perSecond: nat, zero: nat, max: nat, level: nat)
    requires perSecond * zero <= level * 10 && max <= zero * 2 / 3 * N
    ensures 3 * RoundUpEven(3 * perSecond * max / (30 * N)) <= 2 * level + 3
  {
    var z := zero * 2 / 3;
    assert 3 * perSecond * max <= 3 * perSecond * (z * N);
    assert 3 * perSecond * (z * N) == 12 * (perSecond * z);
    assert 3 * (perSecond * z) <= 2 * (perSecond * zero) by {
      assert 3 * z <= 2 * zero;
      assert perSecond * (3 * z) <= perSecond * (2 * zero);
    }
    assert 3 * perSecond * max <= 80 * level;
    var x := 3 * perSecond * max / 120;
    assert 120 * x <= 80 * level;
  }

  predicate SameRate(levels: seq<Level>, perSecond: nat) {
    forall i :: 0 <= i < |levels| ==> levels[i].perSecond == perSecond
  }

  /** What a pass may drop from a queue of `having`, given the levels since the last one:
      no more than two thirds of the smallest of them plus one sample, nothing at all if
      one was below 200 ms, less than a third of what is there, and an even number. */
  ghost predicate Gentle(levels: seq<Level>, perSecond: nat, having: nat, d: nat) {
    && (forall i :: 0 <= i < |levels| ==> 3 * d <= 2 * levels[i].having + 3)
    && ((exists i :: 0 <= i < |levels| && levels[i].having * 5 < perSecond) ==> d == 0)
    && (d > 0 ==> 3 * (having - d) > 2 * having)
    && d % 2 == 0
  }

  /** What is left after a gentle drop from the front. */
  ghost predicate GentlyDropped<T>(before: seq<T>, after: seq<T>, levels: seq<Level>, perSecond: nat) {
    exists d: nat :: d <= |before| && after == before[d..] && Gentle(levels, perSecond, |before|, d)
  }

  /** Every shrink pass is gentle on the levels recorded at the present rate. */
  lemma ShrinkIsGentle(levels: seq<Level>, h: seq<nat>, perSecond: nat, having: nat)
    requires perSecond > 0 && levels != [] && Counts(h, levels) && SameRate(levels, perSecond)
    ensures Gentle(levels, perSecond, having, DropFor(h, 3 * perSecond, having))
  {
    forall i | 0 <= i < |levels|
      ensures 3 * DropFor(h, 3 * perSecond, having) <= 2 * levels[i].having + 3
      ensures levels[i].having * 5 < perSecond ==> DropFor(h, 3 * perSecond, having) == 0
    {
      CountPositive(levels, i);
      SkipIsGentle(h, perSecond, levels[i].having);
    }
  }

  /** The bounds for one level whose bucket is not empty. */
  lemma SkipIsGentle(h: seq<nat>, perSecond: nat, level: nat)
    requires |h| == BUCKETS && perSecond > 0 && h[Bucket(level, perSecond)] > 0
    ensures 3 * SkipFor(h, 3 * perSecond) <= 2 * level + 3
    ensures level * 5 < perSecond ==> SkipFor(h, 3 * perSecond) == 0
  {
    var zero, max := EmptyRun(h, BUCKETS), Peak(h, BUCKETS);
    assert zero <= Bucket(level, perSecond) <= level * 10 / perSecond;
    Scale(perSecond, zero, level);
    var z := zero * 2 / 3;
    SkipBound(perSecond, zero, if max > z * N then z * N else max, level);
    if level * 5 < perSecond {
      BelowTwo(perSecond, zero, level);
      assert 3 * perSecond * 0 / (30 * N) == 0;
    }
  }

  lemma NothingDropped<T>(q: seq<T>, levels: seq<Level>, perSecond: nat)
    ensures GentlyDropped(q, q, levels, perSecond)
  {
    assert q[0..] == q && Gentle(levels, perSecond, |q|, 0);
  }

  lemma PassIsGentle<T>(before: seq<T>, after: seq<T>, levels: seq<Level>, h: seq<nat>, perSecond: nat)
    requires perSecond > 0 && levels != [] && Counts(h, levels)
    requires after == before[DropFor(h, 3 * perSecond, |before|)..]
    ensures SameRate(levels, perSecond) ==> GentlyDropped(before, after, levels, perSecond)
  {
    if SameRate(levels, perSecond) {
      ShrinkIsGentle(levels, h, perSecond, |before|);
    }
  }

  lemma TimesMonotone(a: nat, b: nat, c: nat)
    requires b <= c
    ensures a * b <= a * c
  {
  }

  lemma BelowTwo(perSecond: nat, zero: nat, level: nat)
    requires perSecond * zero <= level * 10 && level * 5 < perSecond
    ensures zero < 2
  {
    if zero >= 2 {
      TimesMonotone(perSecond, 2, zero);
    }
  }

  /** Which bucket wins: the first of the fullest buckets from 100 ms up, or none. */
  lemma {:induction false} PeakIsFirstFullest(h: seq<nat>, i: nat)
    requires |h| == BUCKETS && i <= BUCKETS
    ensures var m := Peak(h, i);
            && (forall k :: 1 <= k < i ==> h[k] <= Weight(h, m))
            && (forall k :: 1 <= k < m ==> h[k] < h[m])
            && (m == 0 <==> forall k :: 1 <= k < i ==> h[k] == 0)
  {
    if i > 1 {
      PeakIsFirstFullest(h, i - 1);
    }
  }

  // ---- what a pass drops, exactly -----------------------------------------

  /** How often each bucket was met. */
  function HistogramOf(levels: seq<Level>): (h: seq<nat>)
    requires LevelsValid(levels)
    ensures Counts(h, levels)
  {
    seq(BUCKETS, b requires 0 <= b < BUCKETS => Count(levels, b))
  }

  /** The first of the fullest buckets from 100 ms up. */
  predicate FirstFullest(h: seq<nat>, m: nat) {
    |h| == BUCKETS && 1 <= m < BUCKETS && h[m] > 0
    && (forall k :: 1 <= k < BUCKETS ==> h[k] <= h[m]) && (forall k :: 1 <= k < m ==> h[k] < h[m])
  }

  predicate FirstFilled(h: seq<nat>, z: nat) {
    |h| == BUCKETS && z < BUCKETS && h[z] > 0 && forall k :: 0 <= k < z ==> h[k] == 0
  }

  /** In thirtieths of the capacity: the fullest bucket, but no more than four times two
      thirds of the first filled one. */
  function Target(m: nat, z: nat): nat {
    if m < 4 * (2 * z / 3) then m else 4 * (2 * z / 3)
  }

  /** The even number of samples a pass is to skip: a quarter of the target, and nothing
      when most of the time less than 600 ms was buffered. */
  ghost predicate IsSkip(h: seq<nat>, cap: nat, skip: nat) {
    && skip % 2 == 0
    && ((forall m :: FirstFullest(h, m) ==> m < 6) ==> skip == 0)
    && forall m, z :: FirstFullest(h, m) && m >= 6 && FirstFilled(h, z) ==>
         cap * Target(m, z) - 120 < 120 * skip <= cap * Target(m, z) + 120
  }

  /** It is skipped when more than three times as much is queued. */
  ghost predicate IsDrop(h: seq<nat>, cap: nat, having: nat, d: nat) {
    exists skip: nat :: IsSkip(h, cap, skip) && d == if having > 3 * skip then skip else 0
  }

  lemma FullestIsPeak(h: seq<nat>, m: nat)
    requires FirstFullest(h, m)
    ensures Peak(h, BUCKETS) == m
  {
    PeakIsFirstFullest(h, BUCKETS);
    var p := Peak(h, BUCKETS);
    assert p > 0;
    assert h[m] <= Weight(h, p) == h[p] <= h[m];
  }

  lemma PeakIsFullest(h: seq<nat>)
    requires |h| == BUCKETS && Peak(h, BUCKETS) > 0
    ensures FirstFullest(h, Peak(h, BUCKETS))
  {
    PeakIsFirstFullest(h, BUCKETS);
    var k :| 1 <= k < BUCKETS && h[k] != 0;
    assert h[k] <= Weight(h, Peak(h, BUCKETS));
  }

  lemma FilledIsEmptyRun(h: seq<nat>, z: nat)
    requires FirstFilled(h, z)
    ensures EmptyRun(h, BUCKETS) == z
  {
  }

  lemma TargetIsClamped(m: nat, z: nat)
    ensures Target(m, z) == if m > z * 2 / 3 * N then z * 2 / 3 * N else m
  {
  }

  lemma SkipIsExact(h: seq<nat>, cap: nat)
    requires |h| == BUCKETS
    ensures IsSkip(h, cap, SkipFor(h, cap))
  {
    if Peak(h, BUCKETS) > 0 {
      PeakIsFullest(h);
    }
    forall m, z | FirstFullest(h, m) && m >= 6 && FirstFilled(h, z)
      ensures cap * Target(m, z) - 120 < 120 * SkipFor(h, cap) <= cap * Target(m, z) + 120
    {
      SkipMeetsTarget(h, cap, m, z);
    }
    SkipIsEven(h, cap);
  }

  lemma SkipIsEven(h: seq<nat>, cap: nat)
    requires |h| == BUCKETS
    ensures SkipFor(h, cap) % 2 == 0 && (Peak(h, BUCKETS) < 6 ==> SkipFor(h, cap) == 0)
  {
  }

  lemma SkipMeetsTarget(h: seq<nat>, cap: nat, m: nat, z: nat)
    requires FirstFullest(h, m) && m >= 6 && FirstFilled(h, z)
    ensures cap * Target(m, z) - 120 < 120 * SkipFor(h, cap) <= cap * Target(m, z) + 120
  {
    FullestIsPeak(h, m);
    FilledIsEmptyRun(h, z);
    TargetIsClamped(m, z);
    assert SkipFor(h, cap) == Quarter(cap, Target(m, z));
  }

  lemma EvenUnique(x: int, s: nat, t: nat)
    requires s % 2 == 0 && t % 2 == 0 && x - 120 < 120 * s <= x + 120 && x - 120 < 120 * t <= x + 120
    ensures s == t
  {
  }

  /** There is one such number only, so a pass is described completely. */
  lemma SkipUnique(h: seq<nat>, cap: nat, s: nat, t: nat)
    requires |h| == BUCKETS && IsSkip(h, cap, s) && IsSkip(h, cap, t)
    ensures s == t
  {
    var m, z := Peak(h, BUCKETS), EmptyRun(h, BUCKETS);
    if m >= 6 {
      PeakIsFullest(h);
      assert FirstFilled(h, z);
      var x := cap * Target(m, z);
      assert x - 120 < 120 * s <= x + 120 && x - 120 < 120 * t <= x + 120;
      EvenUnique(x, s, t);
    } else {
      forall k | FirstFullest(h, k) ensures k < 6 {
        FullestIsPeak(h, k);
      }
    }
  }

  /** What is left after the pass these levels call for. */
  ghost predicate PassDropped<T>(before: seq<T>, after: seq<T>, levels: seq<Level>, cap: nat) {
    LevelsValid(levels)
    && exists d: nat :: d <= |before| && after == before[d..] && IsDrop(HistogramOf(levels), cap, |before|, d)
  }

  lemma PassIsExact<T>(before: seq<T>, after: seq<T>, levels: seq<Level>, h: seq<nat>, cap: nat)
    requires Counts(h, levels) && after == before[DropFor(h, cap, |before|)..]
    ensures PassDropped(before, after, levels, cap)
  {
    assert HistogramOf(levels) == h;
    DropIsExact(h, cap, |before|);
  }

  lemma DropIsExact(h: seq<nat>, cap: nat, having: nat)
    requires |h| == BUCKETS
    ensures IsDrop(h, cap, having, DropFor(h, cap, having))
  {
    SkipIsExact(h, cap);
  }

  lemma {:induction false} OneBucketCounts(levels: seq<Level>, b: nat, k: nat)
    requires LevelsValid(levels) && forall i :: 0 <= i < |levels| ==> Bucket(levels[i].having, levels[i].perSecond) == b
    ensures Count(levels, k) == if k == b then |levels| else 0
  {
    if levels != [] {
      OneBucketCounts(levels[..|levels| - 1], b, k);
    }
  }

  lemma BucketUnique(having: nat, perSecond: nat, b: nat)
    requires perSecond > 0 && b < BUCKETS && InBucket(having, perSecond, b)
    ensures Bucket(having, perSecond) == b
  {
    var c := Bucket(having, perSecond);
    if c < b {
      TimesMonotone(perSecond, c + 1, b);
    } else if b < c {
      TimesMonotone(perSecond, b + 1, c);
    }
  }

  lemma Distribute(a: nat, b: nat)
    ensures 3 * a * b == 3 * (b * a)
  {
  }

  lemma EnoughQueued(perSecond: nat, b: nat, having: nat, skip: nat)
    requires 6 <= b && perSecond > 20 && b * perSecond <= having * 10
    requires 120 * skip <= 3 * perSecond * b + 120
    ensures having > 3 * skip
  {
    Distribute(perSecond, b);
    TimesMonotone(perSecond, 6, b);
  }

  /** A steady level of 600 ms or more is cut by a quarter of itself: when all levels since
      the last pass and the queue found lie in one bucket, that many samples go, give or
      take one. */
  lemma SteadyLevelIsCut(levels: seq<Level>, perSecond: nat, having: nat, b: nat, d: nat)
    requires perSecond > 20 && 6 <= b < BUCKETS && levels != [] && SameRate(levels, perSecond) && LevelsValid(levels)
    requires forall i :: 0 <= i < |levels| ==> InBucket(levels[i].having, perSecond, b)
    requires InBucket(having, perSecond, b) && IsDrop(HistogramOf(levels), 3 * perSecond, having, d)
    ensures 3 * perSecond * b - 120 < 120 * d <= 3 * perSecond * b + 120
  {
    var h := HistogramOf(levels);
    forall i | 0 <= i < |levels| ensures Bucket(levels[i].having, levels[i].perSecond) == b {
      BucketUnique(levels[i].having, perSecond, b);
    }
    forall k | 0 <= k < BUCKETS ensures h[k] == if k == b then |levels| else 0 {
      OneBucketCounts(levels, b, k);
    }
    assert FirstFullest(h, b) && FirstFilled(h, b) && Target(b, b) == b;
    var skip: nat :| IsSkip(h, 3 * perSecond, skip) && d == if having > 3 * skip then skip else 0;
    EnoughQueued(perSecond, b, having, skip);
  }

  /** 1500 ms of stereo at 48 kHz lose 375 ms. */
  lemma SteadySecondAndAHalf(levels: seq<Level>, d: nat)
    requires levels != [] && forall i :: 0 <= i < |levels| ==> levels[i] == Level(144000, 96000)
    requires LevelsValid(levels) && IsDrop(HistogramOf(levels), 288000, 144000, d) && d % 2 == 0
    ensures d == 36000
  {
    SteadyLevelIsCut(levels, 96000, 144000, 15, d);
  }

  // ---- what happens under the ring's lock ---------------------------------

  method AppendLocked<T>(ring: Ring<T>, buffer: seq<T>) returns (having: nat)
    requires ring.Valid()
    modifies ring, ring.data
    ensures ring.Valid() && ring.Contents() == LastOf(old(ring.Contents()) + buffer, ring.data.Length)
    ensures having == |ring.Contents()|
  {
    var cap := ring.data.Length;
    if |buffer| > cap {
      ring.PushSliceOverwrite(buffer);
      return cap;
    }
    ghost var q := ring.Contents();
    ghost var kept := q;
    having := ring.len + |buffer|;
    if having > cap {
      ring.Skip(having - cap);
      kept := q[having - cap..];
      SkippedAnyway(q, buffer, cap);
    }
    assert ring.Contents() == kept && LastOf(kept + buffer, cap) == LastOf(q + buffer, cap);
    ring.PushSliceOverwrite(buffer);
    having := ring.len;
  }

  lemma SkippedAnyway<T>(q: seq<T>, buffer: seq<T>, cap: nat)
    requires |q| <= cap && |buffer| <= cap && |q| + |buffer| > cap
    ensures LastOf(q[|q| + |buffer| - cap..] + buffer, cap) == LastOf(q + buffer, cap)
  {
  }

  /** The end of a pass, from the empty run and the peak of the histogram `h`. */
  method DropLocked<T>(ring: Ring<T>, zero0: nat, max0: nat, ghost h: seq<nat>)
    requires ring.Valid() && |h| == BUCKETS && zero0 == EmptyRun(h, BUCKETS) && max0 == Peak(h, BUCKETS)
    modifies ring`start, ring`len
    ensures ring.Valid()
    ensures ring.Contents() == old(ring.Contents())[DropFor(h, ring.data.Length, |old(ring.Contents())|)..]
  {
    var zero, max := zero0 * 2 / 3, max0;
    var cap := ring.data.Length;
    if max < 6 {
      assert DropFor(h, cap, ring.len) == 0;
      return;
    } else if max > zero * N {
      max := zero * N;
    }
    var skip := RoundUpEven(cap * max / (30 * N));
    assert skip == SkipFor(h, cap);
    if ring.len > skip * 3 && skip > 0 {
      ring.Skip(skip);
    }
  }

  // ---- the object ---------------------------------------------------------

  /** The time of the last pass of any buffer; zero before the first call. */
  class LastPass {
    var tms: int

    constructor ()
      ensures tms == 0
    {
      tms := 0;
    }
  }

  class AudioBuffer<T> {
    var ring: Ring<T>
    var perSecond: nat
    const histogram: array<nat>
    /** Shared by all buffers. */
    const last: LastPass
    /** The levels counted in the histogram. */
    ghost var levels: seq<Level>

    ghost predicate Valid()
      reads this, ring, histogram
    {
      && ring.Valid() && perSecond > 0 && ring.data.Length == 3 * perSecond
      && Counts(histogram[..], levels)
      && histogram as object != ring.data
    }

    function Queue(): seq<T>
      requires Valid()
      reads this, ring, ring.data, histogram
    {
      ring.Contents()
    }

    constructor (last: LastPass, silence: T)
      ensures Valid() && Queue() == [] && perSecond == 48000 * 2 && levels == [] && this.last == last
      ensures fresh(ring) && fresh(ring.data) && fresh(histogram)
    {
      ring := new Ring(48000 * 2 * AUDIO_BUFFER_MS / 1000, silence);
      perSecond := 48000 * 2;
      histogram := new nat[BUCKETS](_ => 0);
      this.last := last;
      levels := [];
    }

    /** A new ring if the capacity changes; otherwise everything stays. */
    method Resize(sampleRate: nat, channels: nat, silence: T)
      requires Valid() && sampleRate > 0 && channels > 0
      modifies this
      ensures Valid() && perSecond == sampleRate * channels
      ensures Queue() == if sampleRate * channels == old(perSecond) then old(Queue()) else []
      ensures ring == old(ring) || (fresh(ring) && fresh(ring.data))
      ensures levels == old(levels)
    {
      var rate := sampleRate * channels;
      assert rate > 0;
      var capacity := rate * AUDIO_BUFFER_MS / 1000;
      assert capacity == 3 * rate;
      if capacity != ring.data.Length {
        ring := new Ring(capacity, silence);
        perSecond := rate;
      }
    }

    /** Appends, keeping the last `capacity` samples of old plus new. */
    method AppendPcm2(buffer: seq<T>) returns (having: nat)
      requires Valid()
      modifies ring, ring.data
      ensures Valid() && Queue() == LastOf(old(Queue()) + buffer, ring.data.Length)
      ensures having == |Queue()|
    {
      having := AppendLocked(ring, buffer);
    }

    /** One pass of the histogram: what the loop over the buckets leaves in `zero` and
        `max`, with every bucket cleared. */
    method ScanHistogram() returns (zero: nat, max: nat)
      requires histogram.Length == BUCKETS
      modifies histogram
      ensures zero == EmptyRun(old(histogram[..]), BUCKETS) && max == Peak(old(histogram[..]), BUCKETS)
      ensures forall k :: 0 <= k < BUCKETS ==> histogram[k] == 0
    {
      ghost var h := histogram[..];
      zero, max := 0, 0;
      for i := 0 to BUCKETS
        invariant zero == EmptyRun(h, i) && max == Peak(h, i)
        invariant forall k :: i <= k < BUCKETS ==> histogram[k] == h[k]
        invariant forall k :: 0 <= k < i ==> histogram[k] == if k == max then Weight(h, max) else 0
      {
        if histogram[i] == 0 && zero == i {
          zero := zero + 1;
        }
        if histogram[i] > histogram[max] {
          histogram[max] := 0;
          max := i;
        } else {
          histogram[i] := 0;
        }
      }
      histogram[max] := 0;
    }

    /** Counts the level and, every twelve seconds, drops what has long been in the way:
        gently, whatever playback has taken since the level was read. */
    method TryShrink(having: nat, now: int)
      requires Valid()
      modifies last, this`levels, histogram, ring`start, ring`len
      ensures Valid()
      ensures old(last.tms) == 0 || now < old(last.tms) + 12000 ==>
        Queue() == old(Queue()) && levels == old(levels) + [Level(having, perSecond)]
      ensures old(last.tms) != 0 && now >= old(last.tms) + 12000 ==>
        && levels == [] && (forall k :: 0 <= k < BUCKETS ==> histogram[k] == 0)
        && exists h :: Counts(h, old(levels) + [Level(having, perSecond)])
                       && Queue() == old(Queue())[DropFor(h, ring.data.Length, |old(Queue())|)..]
      ensures old(last.tms) != 0 && now >= old(last.tms) + 12000 ==>
        PassDropped(old(Queue()), Queue(), old(levels) + [Level(having, perSecond)], ring.data.Length)
      ensures SameRate(old(levels), perSecond) ==>
        GentlyDropped(old(Queue()), Queue(), old(levels) + [Level(having, perSecond)], perSecond)
      ensures last.tms == if old(last.tms) == 0 || now >= old(last.tms) + 12000 then now else old(last.tms)
    {
      CountLevel(having);
      NothingDropped(Queue(), levels, perSecond);
      if last.tms == 0 {
        last.tms := now;
        return;
      } else if now < last.tms + PASS_MS {
        return;
      }
      last.tms := now;
      ShrinkPass();
    }

    method CountLevel(having: nat)
      requires Valid()
      modifies this`levels, histogram
      ensures Valid() && Queue() == old(Queue()) && levels == old(levels) + [Level(having, perSecond)]
    {
      var i := having * 10 / perSecond;
      if i > 29 {
        i := 29;
      }
      CountOneMore(histogram[..], levels, Level(having, perSecond));
      histogram[i] := histogram[i] + 1;
      levels := levels + [Level(having, perSecond)];
      assert Counts(histogram[..], levels);
    }

    method ShrinkPass()
      requires Valid() && levels != []
      modifies this`levels, histogram, ring`start, ring`len
      ensures Valid() && levels == [] && forall k :: 0 <= k < BUCKETS ==> histogram[k] == 0
      ensures exists h :: Counts(h, old(levels))
                          && Queue() == old(Queue())[DropFor(h, ring.data.Length, |old(Queue())|)..]
      ensures PassDropped(old(Queue()), Queue(), old(levels), ring.data.Length)
      ensures SameRate(old(levels), perSecond) ==> GentlyDropped(old(Queue()), Queue(), old(levels), perSecond)
    {
      ghost var h := histogram[..];
      var zero, max := ScanHistogram();
      levels := [];
      assert Counts(histogram[..], levels);
      DropLocked(ring, zero, max, h);
      PassIsExact(old(Queue()), Queue(), old(levels), h, ring.data.Length);
      PassIsGentle(old(Queue()), Queue(), old(levels), h, perSecond);
      assert Counts(h, old(levels));
    }

    /** Appends, then lets the shrinker look at the new level. Whatever it drops is no more
        than two thirds of any level this buffer counted since its last pass plus one
        sample, an even number, and nothing between passes; all this as long as the rate has not changed
        since. */
    method AppendPcm(buffer: seq<T>, now: int) returns (ghost dropped: nat)
      requires Valid()
      modifies last, this`levels, histogram, ring, ring.data
      ensures Valid() && dropped % 2 == 0
      ensures var kept := LastOf(old(Queue()) + buffer, ring.data.Length);
              && dropped <= |kept| && Queue() == kept[dropped..]
              && (old(last.tms) == 0 || now < old(last.tms) + PASS_MS ==> dropped == 0)
              && (SameRate(old(levels), perSecond) ==>
                    Gentle(old(levels) + [Level(|kept|, perSecond)], perSecond, |kept|, dropped))
    {
      ghost var before := levels;
      var having := AppendPcm2(buffer);
      ghost var kept := Queue();
      TryShrink(having, now);
      ghost var all := before + [Level(having, perSecond)];
      dropped := 0;
      if old(last.tms) != 0 && now >= old(last.tms) + PASS_MS {
        ghost var h :| Counts(h, all) && Queue() == kept[DropFor(h, ring.data.Length, |kept|)..];
        dropped := DropFor(h, ring.data.Length, |kept|);
        if SameRate(before, perSecond) {
          ShrinkIsGentle(all, h, perSecond, |kept|);
        }
      }
    }

    /** The output callback: the oldest samples, then silence. */
    method Play(data: array<T>, silence: T)
      requires Valid() && data != ring.data && data as object != histogram
      modifies data, ring`start, ring`len
      ensures Valid()
      ensures var n := if |old(Queue())| < data.Length then |old(Queue())| else data.Length;
              && Queue() == old(Queue())[n..] && data[..n] == old(Queue())[..n]
              && forall k :: n <= k < data.Length ==> data[k] == silence
    {
      var n := data.Length;
      var having := ring.len;
      if having < n {
        n := having;
      }
      var elems := [];
      if n > 0 {
        elems := ring.PopSlice(n);
      }
      for k := 0 to data.Length
        modifies data
        invariant Valid() && n <= data.Length && elems == old(Queue())[..n] && Queue() == old(Queue())[n..]
        invariant forall j :: 0 <= j < k ==> data[j] == if j < n then elems[j] else silence
      {
        data[k] := if k < n then elems[k] else silence;
      }
    }
  }

  lemma CountOneMore(h: seq<nat>, levels: seq<Level>, level: Level)
    requires Counts(h, levels) && level.perSecond > 0
    ensures var b := Bucket(level.having, level.perSecond); Counts(h[b := h[b] + 1], levels + [level])
  {
    assert (levels + [level])[..|levels|] == levels;
  }
}

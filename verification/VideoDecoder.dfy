/** The video decoder's failure machine: `VideoHandler` and the marking of unsupported
    codecs by the display threads (rustdesk-master/src/client.rs). */
module VideoDecoder {
  import opened Wrappers

  datatype CodecFormat = VP8 | VP9 | AV1 | H264 | H265 | Unknown

  /** What the decoder makes of a frame's payload. */
  datatype Outcome = Shown | NotShown | DecodeError

  /** A frame: the format of its payload, and the outcome of decoding it, if it has one. */
  datatype Frame = Frame(format: CodecFormat, payload: Option<Outcome>)

  const MAX_DECODE_FAIL_COUNTER: nat := 3
  const USIZE_MAX: nat := 0xFFFF_FFFF_FFFF_FFFF

  datatype Handler = Handler(format: CodecFormat, failCounter: nat, firstFrame: bool)

  function Fresh(format: CodecFormat): Handler {
    Handler(format, 0, true)
  }

  function Reset(h: Handler, format: Option<CodecFormat>): Handler {
    Fresh(if format.Some? then format.value else h.format)
  }

  function Failed(h: Handler): nat {
    if h.failCounter >= USIZE_MAX then h.failCounter
    else if h.firstFrame && h.failCounter < MAX_DECODE_FAIL_COUNTER then MAX_DECODE_FAIL_COUNTER
    else h.failCounter + 1
  }

  function Handle(h: Handler, vf: Frame): Handler {
    var h1 := if vf.format != h.format then Reset(h, Some(vf.format)) else h;
    match vf.payload
    case None => h1
    case Some(outcome) => h1.(failCounter := if outcome.Shown? then 0 else Failed(h1), firstFrame := false)
  }

  /** The handler object; the decoder itself is known by its format and its outcomes. */
  class VideoHandler {
    var format: CodecFormat
    var failCounter: nat
    var firstFrame: bool

    function State(): Handler
      reads this
    {
      Handler(format, failCounter, firstFrame)
    }

    constructor (format: CodecFormat)
      ensures State() == Fresh(format)
    {
      this.format := format;
      failCounter := 0;
      firstFrame := true;
    }

    method ResetDecoder(format: Option<CodecFormat>)
      modifies this
      ensures State() == Reset(old(State()), format)
      ensures this.format == if format.Some? then format.value else old(this.format)
    {
      if format.Some? {
        this.format := format.value;
      }
      failCounter := 0;
      firstFrame := true;
    }

    method HandleFrame(vf: Frame) returns (res: Outcome)
      modifies this
      ensures State() == Handle(old(State()), vf) && format == vf.format
      ensures res == if vf.payload.Some? then vf.payload.value else NotShown
    {
      if vf.format != format {
        ResetDecoder(Some(vf.format));
      }
      if vf.payload.None? {
        return NotShown;
      }
      res := vf.payload.value;
      if res == Shown {
        failCounter := 0;
      } else if failCounter < USIZE_MAX {
        if firstFrame && failCounter < MAX_DECODE_FAIL_COUNTER {
          failCounter := MAX_DECODE_FAIL_COUNTER;
        } else {
          failCounter := failCounter + 1;
        }
      }
      firstFrame := false;
    }
  }

  // ---- what the counter means ---------------------------------------------

  datatype Event = OnFrame(vf: Frame) | OnReset

  function After(h: Handler, run: seq<Event>): Handler {
    if run == [] then h
    else
      var before := After(h, run[..|run| - 1]);
      match run[|run| - 1]
      case OnFrame(vf) => Handle(before, vf)
      case OnReset => Reset(before, None)
  }

  /** What an onlooker notes: a fresh decoder, a frame shown, a frame failed. */
  datatype Note = Anew | Good | Bad

  function NotesOf(h: Handler, e: Event): seq<Note> {
    match e
    case OnReset => [Anew]
    case OnFrame(vf) =>
      (if vf.format != h.format then [Anew] else []) +
      (match vf.payload
       case None => []
       case Some(outcome) => [if outcome.Shown? then Good else Bad])
  }

  function Notes(h: Handler, run: seq<Event>): seq<Note> {
    if run == [] then [Anew]
    else
      var init := run[..|run| - 1];
      Notes(h, init) + NotesOf(After(h, init), run[|run| - 1])
  }

  /** Length of the unbroken streak of failures at the end. */
  function Streak(notes: seq<Note>): (n: nat)
    ensures n <= |notes|
  {
    if notes != [] && notes[|notes| - 1].Bad? then 1 + Streak(notes[..|notes| - 1]) else 0
  }

  /** A streak of that length began on the first frame after a reset. */
  predicate AnewBefore(notes: seq<Note>, streak: nat) {
    0 < streak < |notes| && notes[|notes| - 1 - streak].Anew?
  }

  predicate StartsAnew(notes: seq<Note>) {
    AnewBefore(notes, Streak(notes))
  }

  function Expected(notes: seq<Note>): nat {
    var n := Streak(notes) + (if StartsAnew(notes) then 2 else 0);
    if n < USIZE_MAX then n else USIZE_MAX
  }

  ghost predicate Tracks(h: Handler, notes: seq<Note>) {
    notes != [] && h.failCounter == Expected(notes) && (h.firstFrame <==> notes[|notes| - 1].Anew?)
  }

  lemma StreakStep(notes: seq<Note>, note: Note)
    ensures Streak(notes + [note]) == if note.Bad? then Streak(notes) + 1 else 0
  {
    assert (notes + [note])[..|notes|] == notes;
  }

  lemma AnewStep(notes: seq<Note>, note: Note, streak: nat, longer: nat)
    requires notes != [] && longer == (if note.Bad? then streak + 1 else 0)
    requires streak == 0 <==> !notes[|notes| - 1].Bad?
    ensures AnewBefore(notes + [note], longer) <==> note.Bad? && (AnewBefore(notes, streak) || notes[|notes| - 1].Anew?)
  {
    if streak < |notes| {
      assert (notes + [note])[|notes| - 1 - streak] == notes[|notes| - 1 - streak];
    }
  }

  lemma NoteStep(notes: seq<Note>, note: Note)
    requires notes != []
    ensures Streak(notes + [note]) == if note.Bad? then Streak(notes) + 1 else 0
    ensures StartsAnew(notes + [note]) <==> note.Bad? && (StartsAnew(notes) || notes[|notes| - 1].Anew?)
  {
    StreakStep(notes, note);
    StreakIsBad(notes);
    AnewStep(notes, note, Streak(notes), Streak(notes + [note]));
  }

  lemma {:induction false} StreakIsBad(notes: seq<Note>)
    requires notes != []
    ensures Streak(notes) == 0 <==> !notes[|notes| - 1].Bad?
  {
  }

  lemma HandleTracks(h: Handler, notes: seq<Note>, e: Event)
    requires Tracks(h, notes)
    ensures Tracks(match e case OnFrame(vf) => Handle(h, vf) case OnReset => Reset(h, None), notes + NotesOf(h, e))
  {
    match e
    case OnReset => NoteStep(notes, Anew);
    case OnFrame(vf) =>
      var mid := if vf.format != h.format then notes + [Anew] else notes;
      NoteStep(notes, Anew);
      if vf.payload.Some? {
        NoteStep(mid, if vf.payload.value.Shown? then Good else Bad);
        StreakIsBad(mid);
        assert notes + NotesOf(h, e) == mid + [if vf.payload.value.Shown? then Good else Bad];
      } else {
        assert notes + NotesOf(h, e) == mid;
      }
  }

  lemma {:induction false} RunTracks(format: CodecFormat, run: seq<Event>)
    ensures Tracks(After(Fresh(format), run), Notes(Fresh(format), run))
  {
    if run != [] {
      var init := run[..|run| - 1];
      RunTracks(format, init);
      HandleTracks(After(Fresh(format), init), Notes(Fresh(format), init), run[|run| - 1]);
    } else {
      assert Streak([Anew]) == 0;
    }
  }

  /** After any run the counter has reached the limit exactly when the current unbroken
      failure streak began on the first frame after a reset or is at least three long. */
  lemma LimitMeaning(format: CodecFormat, run: seq<Event>)
    ensures var notes := Notes(Fresh(format), run);
            After(Fresh(format), run).failCounter >= MAX_DECODE_FAIL_COUNTER
            <==> StartsAnew(notes) || Streak(notes) >= 3
  {
    RunTracks(format, run);
  }

  // ---- which format the decoder is for ------------------------------------

  /** Whatever the payload, the decoder is for the frame's format afterwards. */
  lemma FormatFollowsFrame(h: Handler, vf: Frame)
    ensures Handle(h, vf).format == vf.format
  {
  }

  /** The format of the last frame, or the initial one. */
  function LastFormat(format: CodecFormat, run: seq<Event>): CodecFormat {
    if run == [] then format
    else if run[|run| - 1].OnFrame? then run[|run| - 1].vf.format
    else LastFormat(format, run[..|run| - 1])
  }

  /** After any run: a reset without a format never changes it. */
  lemma {:induction false} FormatIsTheLastFrames(format: CodecFormat, run: seq<Event>)
    ensures After(Fresh(format), run).format == LastFormat(format, run)
  {
    if run != [] {
      var before, e := After(Fresh(format), run[..|run| - 1]), run[|run| - 1];
      FormatIsTheLastFrames(format, run[..|run| - 1]);
      if e.OnFrame? {
        FormatFollowsFrame(before, e.vf);
      }
    }
  }

  // ---- display threads ----------------------------------------------------

  /** One display thread: its handler, and the codec it has marked but not yet announced. */
  datatype Thread = Thread(handler: Option<Handler>, pending: Option<CodecFormat>)

  datatype Update = Update(codec: CodecFormat, list: seq<CodecFormat>)

  /** All threads of a session, the shared list, and the capability updates sent. */
  datatype Session = Session(threads: map<nat, Thread>, marked: seq<CodecFormat>, sent: seq<Update>)

  /** `OnMedia` is a frame with the decoder's validity afterwards, up to the release of the
      lock; the update is sent later, outside the lock. */
  datatype Action =
    | OnMedia(thread: nat, vf: Frame, valid: bool)
    | OnResetMsg(thread: nat)
    | Announce(thread: nat)

  function ThreadOf(s: Session, t: nat): Thread {
    if t in s.threads then s.threads[t] else Thread(None, None)
  }

  function HandlerFor(th: Thread, vf: Frame): Handler {
    Handle(if th.handler.Some? then th.handler.value else Fresh(vf.format), vf)
  }

  predicate Unusable(h: Handler, valid: bool) {
    !valid || h.failCounter >= MAX_DECODE_FAIL_COUNTER
  }

  /** A thread that still owes an update sends it before it looks at new media. */
  function Act(s: Session, a: Action): Session {
    var t := a.thread;
    var th := ThreadOf(s, t);
    match a
    case OnMedia(_, vf, valid) =>
      if th.pending.Some? then s
      else
        var h := HandlerFor(th, vf);
        if Unusable(h, valid) && h.format !in s.marked then
          s.(threads := s.threads[t := Thread(Some(h), Some(h.format))], marked := s.marked + [h.format])
        else s.(threads := s.threads[t := Thread(Some(h), None)])
    case OnResetMsg(_) =>
      if th.pending.Some? || th.handler.None? then s
      else s.(threads := s.threads[t := Thread(Some(Reset(th.handler.value, None)), None)])
    case Announce(_) =>
      if th.pending.None? then s
      else s.(threads := s.threads[t := th.(pending := None)], sent := s.sent + [Update(th.pending.value, s.marked)])
  }

  function Acts(s: Session, run: seq<Action>): Session {
    if run == [] then s else Act(Acts(s, run[..|run| - 1]), run[|run| - 1])
  }

  predicate NoDuplicates(s: seq<CodecFormat>) {
    forall i, j :: 0 <= i < j < |s| ==> s[i] != s[j]
  }

  predicate Pending(s: Session, t: nat, c: CodecFormat) {
    ThreadOf(s, t).pending == Some(c)
  }

  predicate SentAt(s: Session, i: nat, c: CodecFormat) {
    i < |s.sent| && s.sent[i].codec == c
  }

  // What every interleaving keeps, relative to the list `start` it began with.

  ghost predicate ListKept(start: seq<CodecFormat>, s: Session) {
    start <= s.marked && NoDuplicates(s.marked)
  }

  ghost predicate SentOnce(s: Session) {
    forall i: nat, j: nat, c :: SentAt(s, i, c) && SentAt(s, j, c) ==> i == j
  }

  ghost predicate SentMarked(start: seq<CodecFormat>, s: Session) {
    forall i: nat, c :: SentAt(s, i, c) ==>
      s.sent[i].list <= s.marked && c in s.sent[i].list && c !in start && c in s.marked
  }

  ghost predicate PendingMarked(start: seq<CodecFormat>, s: Session) {
    forall t: nat, c :: Pending(s, t, c) ==> c !in start && c in s.marked && forall i: nat :: !SentAt(s, i, c)
  }

  ghost predicate PendingOnce(s: Session) {
    forall t: nat, u: nat, c :: Pending(s, t, c) && Pending(s, u, c) ==> t == u
  }

  ghost predicate Owed(s: Session, c: CodecFormat) {
    (exists i: nat :: SentAt(s, i, c)) || (exists t: nat :: Pending(s, t, c))
  }

  ghost predicate AllOwed(start: seq<CodecFormat>, s: Session) {
    forall c :: c in s.marked && c !in start ==> Owed(s, c)
  }

  ghost predicate Inv(start: seq<CodecFormat>, s: Session) {
    ListKept(start, s) && SentOnce(s) && SentMarked(start, s) && PendingMarked(start, s) && PendingOnce(s) && AllOwed(start, s)
  }

  lemma ActKeepsInv(start: seq<CodecFormat>, s: Session, a: Action)
    requires Inv(start, s)
    ensures Inv(start, Act(s, a)) && s.marked <= Act(s, a).marked
  {
    var r, t := Act(s, a), a.thread;
    OthersUntouched(s, a);
    if a.Announce? && ThreadOf(s, t).pending.Some? {
      AnnounceKeepsInv(start, s, t, r);
    } else if r.marked != s.marked {
      MarkKeepsInv(start, s, t, r);
    } else {
      assert forall u: nat, c :: Pending(r, u, c) <==> Pending(s, u, c);
      SameFacts(start, s, r);
    }
  }

  lemma OthersUntouched(s: Session, a: Action)
    ensures forall u: nat :: u != a.thread ==> ThreadOf(Act(s, a), u) == ThreadOf(s, u)
  {
  }

  lemma SameFacts(start: seq<CodecFormat>, s: Session, r: Session)
    requires Inv(start, s) && r.marked == s.marked && r.sent == s.sent
    requires forall u: nat, c :: Pending(r, u, c) <==> Pending(s, u, c)
    ensures Inv(start, r)
  {
    assert forall i: nat, c :: SentAt(r, i, c) <==> SentAt(s, i, c);
    forall c | c in r.marked && c !in start ensures Owed(r, c) {
      OwedMoves(s, r, c);
    }
  }

  lemma OwedMoves(s: Session, r: Session, c: CodecFormat)
    requires Owed(s, c)
    requires forall i: nat :: SentAt(s, i, c) ==> SentAt(r, i, c)
    requires forall t: nat :: Pending(s, t, c) ==> Pending(r, t, c) || exists i: nat :: SentAt(r, i, c)
    ensures Owed(r, c)
  {
    if exists i: nat :: SentAt(s, i, c) {
      var i: nat :| SentAt(s, i, c);
      assert SentAt(r, i, c);
    } else {
      var t: nat :| Pending(s, t, c);
      assert Pending(r, t, c) || exists i: nat :: SentAt(r, i, c);
    }
  }

  lemma AnnounceKeepsInv(start: seq<CodecFormat>, s: Session, t: nat, r: Session)
    requires Inv(start, s) && ThreadOf(s, t).pending.Some? && r == Act(s, Announce(t))
    requires forall u: nat :: u != t ==> ThreadOf(r, u) == ThreadOf(s, u)
    ensures Inv(start, r)
  {
    var c := ThreadOf(s, t).pending.value;
    assert Pending(s, t, c);
    assert forall u: nat, d :: Pending(r, u, d) <==> Pending(s, u, d) && u != t;
    assert forall i: nat, d :: SentAt(r, i, d) <==> SentAt(s, i, d) || (i == |s.sent| && d == c);
    assert SentAt(r, |s.sent|, c);
    assert PendingMarked(start, r) by {
      forall u: nat, d | Pending(r, u, d) ensures d !in start && d in r.marked && forall i: nat :: !SentAt(r, i, d) {
        assert Pending(s, u, d);
      }
    }
    forall d | d in r.marked && d !in start ensures Owed(r, d) {
      OwedMoves(s, r, d);
    }
  }

  lemma MarkKeepsInv(start: seq<CodecFormat>, s: Session, t: nat, r: Session)
    requires Inv(start, s) && ThreadOf(s, t).pending.None? && ThreadOf(r, t).pending.Some?
    requires forall u: nat :: u != t ==> ThreadOf(r, u) == ThreadOf(s, u)
    requires var c := ThreadOf(r, t).pending.value; c !in s.marked && r.marked == s.marked + [c]
    requires r.sent == s.sent
    ensures Inv(start, r)
  {
    var c := ThreadOf(r, t).pending.value;
    assert forall u: nat, d :: Pending(r, u, d) <==> Pending(s, u, d) || (u == t && d == c);
    assert forall i: nat, d :: SentAt(r, i, d) <==> SentAt(s, i, d);
    assert Pending(r, t, c);
    forall d | d in r.marked && d !in start ensures Owed(r, d) {
      if d != c {
        OwedMoves(s, r, d);
      }
    }
  }

  function Begin(start: seq<CodecFormat>): Session {
    Session(map[], start, [])
  }

  lemma {:induction false} RunKeepsInv(start: seq<CodecFormat>, run: seq<Action>)
    requires NoDuplicates(start)
    ensures Inv(start, Acts(Begin(start), run))
  {
    if run == [] {
      assert forall t: nat, c :: !Pending(Begin(start), t, c);
    } else {
      RunKeepsInv(start, run[..|run| - 1]);
      ActKeepsInv(start, Acts(Begin(start), run[..|run| - 1]), run[|run| - 1]);
    }
  }

  /** The list only grows. */
  lemma {:induction false} MarkedOnlyGrows(start: seq<CodecFormat>, run: seq<Action>, k: nat)
    requires NoDuplicates(start) && k <= |run|
    ensures Acts(Begin(start), run[..k]).marked <= Acts(Begin(start), run).marked
  {
    if k == |run| {
      assert run[..k] == run;
    } else {
      var init := run[..|run| - 1];
      assert init[..k] == run[..k];
      MarkedOnlyGrows(start, init, k);
      RunKeepsInv(start, init);
      ActKeepsInv(start, Acts(Begin(start), init), run[|run| - 1]);
    }
  }

  ghost predicate Quiet(s: Session) {
    forall t: nat, c :: !Pending(s, t, c)
  }

  /** Any interleaving of any number of display threads: the list keeps its beginning and
      never holds a codec twice; updates go out for newly marked codecs only, never two
      for one, each listing its codec; and once no thread owes an update, every newly
      marked codec has had exactly one. */
  lemma OneUpdatePerMarkedCodec(start: seq<CodecFormat>, run: seq<Action>)
    requires NoDuplicates(start)
    ensures var s := Acts(Begin(start), run);
            && start <= s.marked && NoDuplicates(s.marked)
            && (forall i :: 0 <= i < |s.sent| ==>
                  && s.sent[i].codec in s.marked && s.sent[i].codec !in start
                  && s.sent[i].codec in s.sent[i].list && s.sent[i].list <= s.marked)
            && (forall i, j :: 0 <= i < j < |s.sent| ==> s.sent[i].codec != s.sent[j].codec)
            && (Quiet(s) ==> |s.sent| == |s.marked| - |start|
                             && forall c :: c in s.marked && c !in start ==> exists i: nat :: SentAt(s, i, c))
  {
    RunKeepsInv(start, run);
    var s := Acts(Begin(start), run);
    forall i, j | 0 <= i < j < |s.sent| ensures s.sent[i].codec != s.sent[j].codec {
      assert SentAt(s, i, s.sent[i].codec) && SentAt(s, j, s.sent[j].codec);
    }
    forall i | 0 <= i < |s.sent|
      ensures s.sent[i].codec in s.marked && s.sent[i].codec !in start
      ensures s.sent[i].codec in s.sent[i].list && s.sent[i].list <= s.marked
    {
      assert SentAt(s, i, s.sent[i].codec);
    }
    if Quiet(s) {
      forall c | c in s.marked && c !in start ensures exists i: nat :: SentAt(s, i, c) {
        assert Owed(s, c);
      }
      CountUpdates(start, s);
    }
  }

  lemma CountUpdates(start: seq<CodecFormat>, s: Session)
    requires Inv(start, s)
    requires forall c :: c in s.marked && c !in start ==> exists i: nat :: SentAt(s, i, c)
    ensures |s.sent| == |s.marked| - |start|
  {
    var added := s.marked[|start|..];
    assert s.marked == start + added;
    var codecs := seq(|s.sent|, i requires 0 <= i < |s.sent| => s.sent[i].codec);
    forall i, j | 0 <= i < j < |codecs| ensures codecs[i] != codecs[j] {
      assert SentAt(s, i, codecs[i]) && SentAt(s, j, codecs[j]);
    }
    forall c | c in codecs ensures c in added {
      var i :| 0 <= i < |codecs| && codecs[i] == c;
      assert SentAt(s, i, c);
    }
    forall c | c in added ensures c in codecs {
      AddedIsNew(start, added, c);
      var i: nat :| SentAt(s, i, c);
      assert codecs[i] == c;
    }
    DistinctCount(codecs);
    DistinctCount(added);
    assert (set c | c in codecs) == (set c | c in added);
  }

  lemma AddedIsNew(start: seq<CodecFormat>, added: seq<CodecFormat>, c: CodecFormat)
    requires NoDuplicates(start + added) && c in added
    ensures c !in start && c in start + added
  {
    var j :| 0 <= j < |added| && added[j] == c;
    assert (start + added)[|start| + j] == c;
    forall i | 0 <= i < |start| ensures start[i] != c {
      assert (start + added)[i] == start[i];
    }
  }

  lemma {:induction false} DistinctCount(s: seq<CodecFormat>)
    requires NoDuplicates(s)
    ensures |set c | c in s| == |s|
  {
    if s != [] {
      var n := |s| - 1;
      DistinctCount(s[..n]);
      assert s == s[..n] + [s[n]];
      assert (set c | c in s) == (set c | c in s[..n]) + {s[n]};
    }
  }

  /** A reset message starts the thread's decoder afresh in its format, and touches neither
      the list nor what was sent. */
  lemma ResetReachesHandler(s: Session, t: nat)
    requires ThreadOf(s, t).pending.None? && ThreadOf(s, t).handler.Some?
    ensures var r, h := Act(s, OnResetMsg(t)), ThreadOf(s, t).handler.value;
            ThreadOf(r, t).handler == Some(Handler(h.format, 0, true)) && r.marked == s.marked && r.sent == s.sent
  {
  }

  /** A frame marks its own format and nothing else, exactly when it leaves the decoder
      invalid or at the limit and that format is not listed yet; the thread then owes an
      update for it. */
  lemma MarkedExactlyWhenUnusable(s: Session, t: nat, vf: Frame, valid: bool)
    requires ThreadOf(s, t).pending.None?
    ensures var h := HandlerFor(ThreadOf(s, t), vf);
            var r := Act(s, OnMedia(t, vf, valid));
            var marks := (!valid || h.failCounter >= 3) && vf.format !in s.marked;
            && h.format == vf.format && ThreadOf(r, t).handler == Some(h)
            && (r.marked == s.marked + [vf.format] <==> marks) && (r.marked == s.marked <==> !marks)
            && ThreadOf(r, t).pending == if marks then Some(vf.format) else None
  {
    var th := ThreadOf(s, t);
    FormatFollowsFrame(if th.handler.Some? then th.handler.value else Fresh(vf.format), vf);
    assert |s.marked + [vf.format]| == |s.marked| + 1;
  }
}

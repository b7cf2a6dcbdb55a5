/** The bridge's status snapshot and its bounded queue of session events
    (native_rust_core/src/bridge_state.rs). */
module BridgeState {
  import opened Wrappers
  import opened Strings
  import opened Json

  // ---- escaping -----------------------------------------------------------

  /** Four passes over the whole string, each replacing one character. */
  function EscapeJson(value: string): string {
    Replace(Replace(Replace(Replace(value, "\\", "\\\\"), "\"", "\\\""), "\n", "\\n"), "\r", "\\r")
  }

  /** The escaper a reader of the code has in mind: one pass, one character at a time. */
  function EscapeChar(c: char): string {
    if c == '\\' then "\\\\"
    else if c == '"' then "\\\""
    else if c == '\n' then "\\n"
    else if c == '\r' then "\\r"
    else [c]
  }

  function EscapeEach(s: string): string {
    if s == "" then "" else EscapeChar(s[0]) + EscapeEach(s[1..])
  }

  lemma {:induction false} ReplaceCharDistributes(a: string, b: string, c: char, t: string)
    ensures Replace(a + b, [c], t) == Replace(a, [c], t) + Replace(b, [c], t)
  {
    if a == "" {
      assert a + b == b;
    } else {
      assert (a + b)[1..] == a[1..] + b;
      ReplaceCharDistributes(a[1..], b, c, t);
    }
  }

  lemma ReplaceOneChar(d: char, c: char, t: string)
    ensures Replace([d], [c], t) == if d == c then t else [d]
  {
    assert [c] <= [d] <==> [c][0] == [d][0];
    assert [d][1..] == "";
    assert Replace("", [c], t) == "";
    assert t + "" == t && [d] + "" == [d];
  }

  lemma ReplaceTwoChars(d: char, e: char, c: char, t: string)
    requires c != d && c != e
    ensures Replace([d, e], [c], t) == [d, e]
  {
    assert [d, e] == [d] + [e];
    ReplaceCharDistributes([d], [e], c, t);
    ReplaceOneChar(d, c, t);
    ReplaceOneChar(e, c, t);
  }

  lemma EscapeJsonDistributes(a: string, b: string)
    ensures EscapeJson(a + b) == EscapeJson(a) + EscapeJson(b)
  {
    ReplaceCharDistributes(a, b, '\\', "\\\\");
    var a1, b1 := Replace(a, "\\", "\\\\"), Replace(b, "\\", "\\\\");
    ReplaceCharDistributes(a1, b1, '"', "\\\"");
    var a2, b2 := Replace(a1, "\"", "\\\""), Replace(b1, "\"", "\\\"");
    ReplaceCharDistributes(a2, b2, '\n', "\\n");
    ReplaceCharDistributes(Replace(a2, "\n", "\\n"), Replace(b2, "\n", "\\n"), '\r', "\\r");
  }

  lemma EscapeJsonChar(c: char)
    ensures EscapeJson([c]) == EscapeChar(c)
  {
    ReplaceOneChar(c, '\\', "\\\\");
    if c == '\\' {
      ReplaceTwoChars('\\', '\\', '"', "\\\"");
      ReplaceTwoChars('\\', '\\', '\n', "\\n");
      ReplaceTwoChars('\\', '\\', '\r', "\\r");
    } else {
      ReplaceOneChar(c, '"', "\\\"");
      if c == '"' {
        ReplaceTwoChars('\\', '"', '\n', "\\n");
        ReplaceTwoChars('\\', '"', '\r', "\\r");
      } else {
        ReplaceOneChar(c, '\n', "\\n");
        if c == '\n' {
          ReplaceTwoChars('\\', 'n', '\r', "\\r");
        } else {
          ReplaceOneChar(c, '\r', "\\r");
        }
      }
    }
  }

  /** The four passes never escape each other's output. */
  lemma {:induction false} PassesAreOneEscaper(s: string)
    ensures EscapeJson(s) == EscapeEach(s)
  {
    if s != "" {
      assert s == [s[0]] + s[1..];
      EscapeJsonDistributes([s[0]], s[1..]);
      EscapeJsonChar(s[0]);
      PassesAreOneEscaper(s[1..]);
    }
  }

  /** The only control characters are the two that `escape_json` knows. */
  predicate Printable(s: string) {
    forall i :: 0 <= i < |s| ==> IsControl(s[i]) ==> s[i] == '\n' || s[i] == '\r'
  }

  /** How reading goes on behind one escaped character. */
  lemma EscapedCharStep(c: char, more: string)
    ensures ReadChars(EscapeChar(c) + more) ==
            if IsControl(c) && c != '\n' && c != '\r' then Fail
            else match ReadChars(more)
                 case Fail => Fail
                 case Got(x, rest) => Got([c] + x, rest)
  {
    var s := EscapeChar(c) + more;
    if |EscapeChar(c)| == 2 {
      assert s[1..][0] == EscapeChar(c)[1] && s[1..][1..] == more;
    } else {
      assert s[1..] == more;
    }
  }

  lemma {:induction false} EscapedReads(x: string, rest: string)
    ensures ReadChars(EscapeEach(x) + ("\"" + rest)) == if Printable(x) then Got(x, rest) else Fail
  {
    if x == "" {
      assert EscapeEach(x) + ("\"" + rest) == "\"" + rest;
      assert ("\"" + rest)[1..] == rest;
    } else {
      var more := EscapeEach(x[1..]) + ("\"" + rest);
      assert EscapeEach(x) + ("\"" + rest) == EscapeChar(x[0]) + more;
      EscapedCharStep(x[0], more);
      EscapedReads(x[1..], rest);
      assert x == [x[0]] + x[1..];
    }
  }

  function QuotedText(x: string): string {
    Quote(EscapeJson(x))
  }

  lemma StringFieldReads(x: string)
    ensures Printable(x) ==> ReadsValue(QuotedText(x), Str(x))
    ensures !Printable(x) ==> Unreadable(QuotedText(x))
  {
    PassesAreOneEscaper(x);
    if Printable(x) {
      forall rest: string ensures ReadChars(EscapeEach(x) + ("\"" + rest)) == Got(x, rest) {
        EscapedReads(x, rest);
      }
      QuotedReads(EscapeEach(x), x);
    } else {
      forall rest: string ensures ReadValue(QuotedText(x) + rest) == Fail {
        EscapedReads(x, rest);
        var t := QuotedText(x) + rest;
        assert t[1..] == EscapeEach(x) + ("\"" + rest);
        StringStep(t);
      }
    }
  }

  /** A place in one of the two `format!` templates. */
  datatype Slot =
    | StringSlot(key: string, x: string)
    | BoolSlot(key: string, b: bool)
    | NumberSlot(key: string, n: int)
  {
    /** What the template writes there. */
    function Text(): string {
      match this
      case StringSlot(_, x) => QuotedText(x)
      case BoolSlot(_, b) => if b then "true" else "false"
      case NumberSlot(_, n) => IntText(n)
    }

    function Meaning(): Value {
      match this
      case StringSlot(_, x) => Str(x)
      case BoolSlot(_, b) => Bool(b)
      case NumberSlot(_, n) => Number(IntText(n))
    }

    predicate SlotPrintable() {
      StringSlot? ==> Printable(x)
    }
  }

  function RenderAll(slots: seq<Slot>): (ms: seq<Member>)
    ensures |ms| == |slots|
  {
    seq(|slots|, i requires 0 <= i < |slots| => Member(slots[i].key, slots[i].Text(), slots[i].Meaning()))
  }

  lemma SlotReads(slot: Slot)
    ensures if slot.SlotPrintable() then ReadsValue(slot.Text(), slot.Meaning()) else Unreadable(slot.Text())
  {
    match slot
    case StringSlot(_, x) => StringFieldReads(x);
    case BoolSlot(_, b) => BoolReads(b);
    case NumberSlot(_, n) => IntReads(n);
  }

  /** What a reader should make of a filled template. */
  ghost predicate IsReading(slots: seq<Slot>, fields: seq<(string, Value)>) {
    |fields| == |slots| && forall i :: 0 <= i < |slots| ==> fields[i] == (slots[i].key, slots[i].Meaning())
  }

  predicate SlotsPrintable(slots: seq<Slot>) {
    forall i :: 0 <= i < |slots| ==> slots[i].SlotPrintable()
  }

  /** An object printed by a template is read back exactly when every string in it is
      printable; otherwise it is no JSON text at all. */
  lemma TemplateReads(slots: seq<Slot>, fields: seq<(string, Value)>)
    requires slots != [] && (forall i :: 0 <= i < |slots| ==> IsPlain(slots[i].key)) && IsReading(slots, fields)
    ensures SlotsPrintable(slots) ==> ReadsValue(ObjectText(RenderAll(slots)), Obj(fields))
    ensures !SlotsPrintable(slots) ==> Unreadable(ObjectText(RenderAll(slots)))
  {
    var ms := RenderAll(slots);
    forall i | 0 <= i < |ms|
      ensures Meanings(ms)[i] == fields[i]
      ensures if slots[i].SlotPrintable() then WellPrinted(ms[i]) else Unreadable(ms[i].text)
    {
      MeaningsAt(ms, i);
      SlotReads(slots[i]);
    }
    assert Meanings(ms) == fields;
    if SlotsPrintable(slots) {
      ObjectReads(ms);
    } else {
      var k := FirstUnprintable(slots, 0);
      ObjectFails(ms, k);
    }
  }

  lemma FirstUnprintable(slots: seq<Slot>, from: nat) returns (k: nat)
    requires !SlotsPrintable(slots)
    requires from <= |slots| && forall i :: 0 <= i < from ==> slots[i].SlotPrintable()
    ensures k < |slots| && !slots[k].SlotPrintable() && forall i :: 0 <= i < k ==> slots[i].SlotPrintable()
    decreases |slots| - from
  {
    if slots[from].SlotPrintable() {
      k := FirstUnprintable(slots, from + 1);
    } else {
      k := from;
    }
  }

  // ---- the snapshot -------------------------------------------------------

  datatype BridgeSnapshot = BridgeSnapshot(
    adapter: string,
    coreReady: bool,
    incomingReady: bool,
    displayId: string,
    fingerprint: string,
    directAddress: string,
    statusSummary: string,
    detailMessage: string,
    server: string,
    sessionStage: string,
    activePeerId: string,
    lastError: string
  ) {
    function ToJson(): string {
      ObjectText(RenderAll(Slots()))
    }

    /** The template's slots and the expressions that fill them. */
    function Slots(): seq<Slot> {
      [StringSlot("adapter", adapter), BoolSlot("coreReady", coreReady),
       BoolSlot("incomingReady", incomingReady), StringSlot("displayId", displayId),
       StringSlot("fingerprint", fingerprint), StringSlot("directAddress", directAddress),
       StringSlot("statusSummary", statusSummary), StringSlot("detailMessage", detailMessage),
       StringSlot("server", server), StringSlot("sessionStage", sessionStage),
       StringSlot("activePeerId", activePeerId), StringSlot("lastError", lastError)]
    }

    /** The twelve fields as a JSON reader should see them. */
    function Fields(): seq<(string, Value)> {
      [("adapter", Str(adapter)), ("coreReady", Bool(coreReady)), ("incomingReady", Bool(incomingReady)),
       ("displayId", Str(displayId)), ("fingerprint", Str(fingerprint)), ("directAddress", Str(directAddress)),
       ("statusSummary", Str(statusSummary)), ("detailMessage", Str(detailMessage)), ("server", Str(server)),
       ("sessionStage", Str(sessionStage)), ("activePeerId", Str(activePeerId)), ("lastError", Str(lastError))]
    }

    predicate AllPrintable() {
      Printable(adapter) && Printable(displayId) && Printable(fingerprint) && Printable(directAddress)
      && Printable(statusSummary) && Printable(detailMessage) && Printable(server) && Printable(sessionStage)
      && Printable(activePeerId) && Printable(lastError)
    }
  }

  lemma SnapshotSlots(b: BridgeSnapshot)
    ensures |b.Slots()| == 12 && (forall i :: 0 <= i < 12 ==> IsPlain(b.Slots()[i].key))
    ensures IsReading(b.Slots(), b.Fields())
  {
    var s := b.Slots();
    KeysPlain();
    assert IsPlain(s[0].key) && IsPlain(s[1].key) && IsPlain(s[2].key) && IsPlain(s[3].key);
    assert IsPlain(s[4].key) && IsPlain(s[5].key) && IsPlain(s[6].key) && IsPlain(s[7].key);
    assert IsPlain(s[8].key) && IsPlain(s[9].key) && IsPlain(s[10].key) && IsPlain(s[11].key);
  }

  lemma KeysPlain()
    ensures IsPlain("adapter") && IsPlain("coreReady") && IsPlain("incomingReady") && IsPlain("displayId")
    ensures IsPlain("fingerprint") && IsPlain("directAddress") && IsPlain("statusSummary") && IsPlain("detailMessage")
    ensures IsPlain("server") && IsPlain("sessionStage") && IsPlain("activePeerId") && IsPlain("lastError")
  {
  }

  lemma SnapshotPrintable(b: BridgeSnapshot)
    ensures b.AllPrintable() <==> SlotsPrintable(b.Slots())
  {
    var s := b.Slots();
    if SlotsPrintable(s) {
      assert s[0].SlotPrintable() && s[3].SlotPrintable() && s[4].SlotPrintable() && s[5].SlotPrintable();
      assert s[6].SlotPrintable() && s[7].SlotPrintable() && s[8].SlotPrintable() && s[9].SlotPrintable();
      assert s[10].SlotPrintable() && s[11].SlotPrintable();
    }
  }

  /** `to_json` followed by any RFC 8259 reader gives back all twelve fields, in order,
      exactly when newline and carriage return are the only control characters in them;
      with any other control character the text is not JSON. */
  lemma SnapshotReadsBack(b: BridgeSnapshot)
    ensures Parse(b.ToJson()) == if b.AllPrintable() then Json.Text(Obj(b.Fields())) else Malformed
  {
    SnapshotSlots(b);
    SnapshotPrintable(b);
    TemplateReads(b.Slots(), b.Fields());
    if b.AllPrintable() {
      ParseWhole(b.ToJson(), Obj(b.Fields()));
    } else {
      ParseUnreadable(b.ToJson());
    }
  }

  // ---- session events -----------------------------------------------------

  const MAX_EVENTS: nat := 50

  datatype Event = Event(kind: string, detail: string, peerId: string, timestamp: int) {
    function Slots(): seq<Slot> {
      [StringSlot("kind", kind), StringSlot("detail", detail), StringSlot("peerId", peerId),
       NumberSlot("timestamp", timestamp)]
    }

    function ToJson(): string {
      ObjectText(RenderAll(Slots()))
    }

    /** The event as a JSON reader should see it. */
    function Reading(): Value {
      Obj(Fields())
    }

    function Fields(): seq<(string, Value)> {
      [("kind", Str(kind)), ("detail", Str(detail)), ("peerId", Str(peerId)),
       ("timestamp", Number(IntText(timestamp)))]
    }

    predicate AllPrintable() {
      Printable(kind) && Printable(detail) && Printable(peerId)
    }
  }

  /** `current_timestamp_millis`: the clock's milliseconds cast to 64 bits, or zero when
      the clock is before the epoch. */
  function TimestampOf(clock: int): (t: int)
    ensures -0x8000_0000_0000_0000 <= t < 0x8000_0000_0000_0000
    ensures 0 <= clock < 0x8000_0000_0000_0000 ==> t == clock
    ensures 0 <= clock ==> (t - clock) % 0x1_0000_0000_0000_0000 == 0
    ensures clock < 0 ==> t == 0
  {
    if clock < 0 then 0
    else (clock + 0x8000_0000_0000_0000) % 0x1_0000_0000_0000_0000 - 0x8000_0000_0000_0000
  }

  lemma EventReads(e: Event)
    ensures e.AllPrintable() ==> ReadsValue(e.ToJson(), e.Reading())
    ensures !e.AllPrintable() ==> Unreadable(e.ToJson())
  {
    var s := e.Slots();
    assert e.AllPrintable() <==> SlotsPrintable(s) by {
      if SlotsPrintable(s) {
        assert s[0].SlotPrintable() && s[1].SlotPrintable() && s[2].SlotPrintable();
      }
    }
    TemplateReads(s, e.Fields());
  }

  function JsonTexts(events: seq<Event>): (r: seq<string>)
    ensures |r| == |events| && forall i :: 0 <= i < |r| ==> r[i] == events[i].ToJson()
  {
    seq(|events|, i requires 0 <= i < |events| => events[i].ToJson())
  }

  function Readings(events: seq<Event>): (r: seq<Value>)
    ensures |r| == |events| && forall i :: 0 <= i < |r| ==> r[i] == events[i].Reading()
  {
    seq(|events|, i requires 0 <= i < |events| => events[i].Reading())
  }

  /** The store behind the session event mutex. */
  class SessionEvents {
    var texts: seq<string>

    constructor ()
      ensures texts == []
    {
      texts := [];
    }

    method QueueSessionEvent(kind: string, detail: string, peerId: string, clock: int)
      modifies this
      ensures texts == LastOf(old(texts) + [Event(kind, detail, peerId, TimestampOf(clock)).ToJson()], MAX_EVENTS)
    {
      var event := Event(kind, detail, peerId, TimestampOf(clock)).ToJson();
      texts := texts + [event];
      if |texts| > MAX_EVENTS {
        var drainCount := |texts| - MAX_EVENTS;
        texts := texts[drainCount..];
      }
    }

    method DrainSessionEventsJson() returns (json: string)
      modifies this
      ensures texts == [] && json == ArrayText(old(texts))
    {
      var drained := texts;
      texts := [];
      json := ArrayText(drained);
    }
  }

  // ---- runs of the queue --------------------------------------------------

  datatype Op = Queue(event: Event) | Drain

  /** The store after a run, as the two methods leave it. */
  function Store(run: seq<Op>): seq<string> {
    if run == [] then [] else
      var before := Store(run[..|run| - 1]);
      match run[|run| - 1]
      case Queue(e) => LastOf(before + [e.ToJson()], MAX_EVENTS)
      case Drain => []
  }

  /** Every event queued since the last drain. */
  function SinceDrain(run: seq<Op>): seq<Event> {
    if run == [] then [] else
      match run[|run| - 1]
      case Queue(e) => SinceDrain(run[..|run| - 1]) + [e]
      case Drain => []
  }

  lemma QueueOne(all: seq<Event>, e: Event)
    ensures LastOf(JsonTexts(LastOf(all, 50)) + [e.ToJson()], 50) == JsonTexts(LastOf(all + [e], 50))
  {
  }

  lemma {:induction false} StoreHoldsTheLastFifty(run: seq<Op>)
    ensures Store(run) == JsonTexts(LastOf(SinceDrain(run), 50))
    ensures |Store(run)| <= 50
  {
    if run != [] {
      var init := run[..|run| - 1];
      StoreHoldsTheLastFifty(init);
      if run[|run| - 1].Queue? {
        QueueOne(SinceDrain(init), run[|run| - 1].event);
      }
    }
  }

  /** Calls of the two methods, with the clock at each. */
  datatype Call = QueueCall(kind: string, detail: string, peerId: string, clock: int) | DrainCall

  function OpOf(call: Call): Op {
    match call
    case QueueCall(kind, detail, peerId, clock) => Queue(Event(kind, detail, peerId, TimestampOf(clock)))
    case DrainCall => Drain
  }

  function OpsOf(calls: seq<Call>): (run: seq<Op>)
    ensures |run| == |calls| && forall i :: 0 <= i < |run| ==> run[i] == OpOf(calls[i])
  {
    seq(|calls|, i requires 0 <= i < |calls| => OpOf(calls[i]))
  }

  /** What the drains of a run return. */
  function DrainedBy(run: seq<Op>): seq<string> {
    if run == [] then []
    else
      var init := run[..|run| - 1];
      DrainedBy(init) + (if run[|run| - 1].Drain? then [ArrayText(Store(init))] else [])
  }

  lemma OpsMore(calls: seq<Call>, k: nat)
    requires k < |calls|
    ensures var before, all := OpsOf(calls[..k]), OpsOf(calls[..k + 1]);
            all[..|all| - 1] == before && all[|all| - 1] == OpOf(calls[k])
  {
  }

  /** The object itself, over any sequence of calls: its store and everything it drained
      are those of the run. */
  method PerformAll(s: SessionEvents, calls: seq<Call>) returns (drained: seq<string>)
    requires s.texts == []
    modifies s
    ensures s.texts == Store(OpsOf(calls)) && drained == DrainedBy(OpsOf(calls))
  {
    drained := [];
    for k := 0 to |calls|
      invariant s.texts == Store(OpsOf(calls[..k])) && drained == DrainedBy(OpsOf(calls[..k]))
    {
      OpsMore(calls, k);
      match calls[k] {
        case QueueCall(kind, detail, peerId, clock) => s.QueueSessionEvent(kind, detail, peerId, clock);
        case DrainCall =>
          var json := s.DrainSessionEventsJson();
          drained := drained + [json];
      }
    }
    assert calls[..|calls|] == calls;
  }

  predicate AllPrintable(events: seq<Event>) {
    forall i :: 0 <= i < |events| ==> events[i].AllPrintable()
  }

  lemma FirstBad(events: seq<Event>, from: nat) returns (k: nat)
    requires !AllPrintable(events)
    requires from <= |events| && forall i :: 0 <= i < from ==> events[i].AllPrintable()
    ensures k < |events| && !events[k].AllPrintable() && forall i :: 0 <= i < k ==> events[i].AllPrintable()
    decreases |events| - from
  {
    if events[from].AllPrintable() {
      k := FirstBad(events, from + 1);
    } else {
      k := from;
    }
  }

  lemma EventsRead(events: seq<Event>)
    ensures forall i :: 0 <= i < |events| && events[i].AllPrintable() ==> ReadsValue(JsonTexts(events)[i], Readings(events)[i])
    ensures forall i :: 0 <= i < |events| && !events[i].AllPrintable() ==> Unreadable(JsonTexts(events)[i])
    ensures forall i :: 0 <= i < |events| ==> JsonTexts(events)[i] != "" && OpensValue(JsonTexts(events)[i][0])
  {
    forall i | 0 <= i < |events|
      ensures JsonTexts(events)[i] != "" && OpensValue(JsonTexts(events)[i][0])
      ensures if events[i].AllPrintable() then ReadsValue(JsonTexts(events)[i], Readings(events)[i])
              else Unreadable(JsonTexts(events)[i])
    {
      EventReads(events[i]);
    }
  }

  predicate IsStringField(m: (string, Value), key: string) {
    m.0 == key && m.1.Str?
  }

  predicate IsIntegerField(m: (string, Value), key: string) {
    m.0 == key && m.1.Number? && IsIntText(m.1.lexeme)
  }

  /** The event a reader makes of an object. */
  function EventOf(v: Value): Option<Event> {
    match v
    case Obj(ms) =>
      if |ms| == 4 && IsStringField(ms[0], "kind") && IsStringField(ms[1], "detail") && IsStringField(ms[2], "peerId")
         && IsIntegerField(ms[3], "timestamp")
      then Some(Event(ms[0].1.s, ms[1].1.s, ms[2].1.s, IntOf(ms[3].1.lexeme)))
      else None
    case _ => None
  }

  lemma EventComesBack(e: Event)
    ensures EventOf(e.Reading()) == Some(e)
  {
    IntTextDenotes(e.timestamp);
  }

  /** The array a drain returns reads back as exactly the last fifty events queued since
      the previous drain, in order and with their timestamps as numbers, exactly when all
      of these are printable; otherwise it is no JSON. */
  lemma DrainReadsBack(run: seq<Op>)
    ensures var events := LastOf(SinceDrain(run), 50);
            if AllPrintable(events) then
              && Parse(ArrayText(Store(run))) == Json.Text(Arr(Readings(events)))
              && forall i :: 0 <= i < |events| ==> EventOf(Readings(events)[i]) == Some(events[i])
            else Parse(ArrayText(Store(run))) == Malformed
  {
    StoreHoldsTheLastFifty(run);
    var events := LastOf(SinceDrain(run), 50);
    ReadTogether(events);
    forall i | 0 <= i < |events| ensures EventOf(Readings(events)[i]) == Some(events[i]) {
      EventComesBack(events[i]);
    }
  }

  /** A printed array of events reads back exactly when all of them are printable. */
  lemma ReadTogether(events: seq<Event>)
    ensures Parse(ArrayText(JsonTexts(events))) ==
            if AllPrintable(events) then Json.Text(Arr(Readings(events))) else Malformed
  {
    var texts := JsonTexts(events);
    EventsRead(events);
    if AllPrintable(events) {
      ArrayReads(texts, Readings(events));
    } else {
      var k := FirstBad(events, 0);
      ArrayFails(texts, Readings(events), k);
    }
  }
}

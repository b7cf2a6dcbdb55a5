/** The retry back-off of the UDP NAT test (`test_udp_uat` in
    rustdesk-master/src/client.rs). Times are nanoseconds since the first packets. */
module UdpProbe {

  const MS: nat := 1_000_000
  const START_INTERVAL: nat := 20
  const MAX_INTERVAL: nat := 200

  /** What the `select!` loop may see next. */
  datatype Event =
    | Timer(now: nat, sentAt: nat, delivered: bool)
    | Ignored
    | Answer

  /** The loop's variables; `attempts` counts every datagram handed to the socket,
      `packetsSent` those the socket accepted. */
  datatype Probe = Probe(interval: nat, lastSend: nat, packetsSent: nat, attempts: nat)

  /** One and a half times the interval in whole milliseconds, capped. */
  function NextInterval(interval: nat): nat {
    if interval * 3 / 2 < MAX_INTERVAL then interval * 3 / 2 else MAX_INTERVAL
  }

  function Step(p: Probe, e: Event): Probe {
    match e
    case Timer(now, sentAt, delivered) =>
      if now - p.lastSend >= p.interval * MS then
        Probe(NextInterval(p.interval), sentAt, p.packetsSent + (if delivered then 1 else 0), p.attempts + 1)
      else p
    case _ => p
  }

  /** The loop body applied to a run of events up to the first answer. */
  function Run(p: Probe, events: seq<Event>): Probe
    decreases |events|
  {
    if events == [] || events[0].Answer? then p else Run(Step(p, events[0]), events[1..])
  }

  /** After the initial burst, whose end is the first `last_send_time`. */
  function Started(delivered0: bool, delivered1: bool, last0: nat): Probe {
    Probe(START_INTERVAL, last0, (if delivered0 then 1 else 0) + (if delivered1 then 1 else 0), 2)
  }

  /** The procedure as written: two datagrams at once, then the loop. */
  method TestUdp(delivered0: bool, delivered1: bool, last0: nat, events: seq<Event>) returns (p: Probe)
    ensures p == Run(Started(delivered0, delivered1, last0), events)
  {
    var retryInterval: nat, packetsSent, attempts, lastSendTime := START_INTERVAL, 0, 0, last0;
    for burst := 0 to 2
      invariant attempts == burst
      invariant packetsSent == (if burst > 0 && delivered0 then 1 else 0) + (if burst > 1 && delivered1 then 1 else 0)
    {
      attempts := attempts + 1;
      if (if burst == 0 then delivered0 else delivered1) {
        packetsSent := packetsSent + 1;
      }
    }
    var i := 0;
    while i < |events| && !events[i].Answer?
      invariant i <= |events|
      invariant Run(Probe(retryInterval, lastSendTime, packetsSent, attempts), events[i..])
             == Run(Started(delivered0, delivered1, last0), events)
    {
      if events[i].Timer? {
        var elapsed := events[i].now - lastSendTime;
        if elapsed >= retryInterval * MS {
          attempts := attempts + 1;
          if events[i].delivered {
            packetsSent := packetsSent + 1;
          }
          var longer := retryInterval * 3 / 2;
          retryInterval := if longer < MAX_INTERVAL then longer else MAX_INTERVAL;
          lastSendTime := events[i].sentAt;
        }
      }
      i := i + 1;
    }
    return Probe(retryInterval, lastSendTime, packetsSent, attempts);
  }

  /** The clock never runs backwards, and `t` is not before the last event. */
  predicate Ordered(from: nat, events: seq<Event>, t: nat)
    decreases |events|
  {
    if events == [] then from <= t
    else match events[0]
         case Timer(now, sentAt, _) => from <= now <= sentAt && Ordered(sentAt, events[1..], t)
         case _ => Ordered(from, events[1..], t)
  }

  // ---- the schedule of intervals ------------------------------------------

  /** The interval after `k` retries. */
  function Interval(k: nat): (v: nat) {
    if k == 0 then START_INTERVAL else NextInterval(Interval(k - 1))
  }

  /** Time taken by the first `k` retries at the earliest, in milliseconds. */
  function Earliest(k: nat): nat {
    if k == 0 then 0 else Earliest(k - 1) + Interval(k - 1)
  }

  lemma FirstIntervals()
    ensures Interval(0) == 20 && Interval(1) == 30 && Interval(2) == 45 && Interval(3) == 67
    ensures Interval(4) == 100 && Interval(5) == 150 && Interval(6) == 200
    ensures Earliest(1) == 20 && Earliest(2) == 50 && Earliest(3) == 95 && Earliest(4) == 162
    ensures Earliest(5) == 262 && Earliest(6) == 412
  {
    assert Interval(0) == 20 && Interval(1) == 30 && Interval(2) == 45 && Interval(3) == 67;
    assert Interval(4) == 100 && Interval(5) == 150 && Interval(6) == 200;
    assert Earliest(1) == 20 && Earliest(2) == 50 && Earliest(3) == 95 && Earliest(4) == 162;
  }

  /** The interval never shrinks, stays between 20 and 200 and is 200 exactly from the
      sixth retry on. */
  lemma {:induction false} IntervalShape(k: nat)
    ensures START_INTERVAL <= Interval(k) <= MAX_INTERVAL && Interval(k) <= Interval(k + 1)
    ensures Interval(k) == MAX_INTERVAL <==> k >= 6
  {
    FirstIntervals();
    if k > 6 {
      IntervalShape(k - 1);
    }
  }

  lemma {:induction false} EarliestLate(k: nat)
    requires k >= 6
    ensures Earliest(k) == 412 + 200 * (k - 6)
  {
    FirstIntervals();
    if k > 6 {
      EarliestLate(k - 1);
      IntervalShape(k - 1);
    }
  }

  // ---- every run ----------------------------------------------------------

  ghost predicate Inv(p: Probe, k: nat) {
    p.interval == Interval(k) && p.attempts == k + 2 && p.packetsSent <= p.attempts && Earliest(k) * MS <= p.lastSend
  }

  lemma {:induction false} RunKeepsSchedule(p: Probe, k: nat, events: seq<Event>, t: nat) returns (n: nat)
    requires Inv(p, k) && Ordered(p.lastSend, events, t)
    ensures n >= k && Inv(Run(p, events), n) && Earliest(n) * MS <= t
    decreases |events|
  {
    if events == [] || events[0].Answer? {
      OrderedEnd(p.lastSend, events, t);
      n := k;
    } else {
      var q := Step(p, events[0]);
      if q == p {
        OrderedLater(p.lastSend, events, t);
        n := RunKeepsSchedule(p, k, events[1..], t);
      } else {
        n := RunKeepsSchedule(q, k + 1, events[1..], t);
      }
    }
  }

  lemma {:induction false} OrderedEnd(from: nat, events: seq<Event>, t: nat)
    requires Ordered(from, events, t)
    ensures from <= t
    decreases |events|
  {
    if events != [] {
      OrderedEnd(if events[0].Timer? then events[0].sentAt else from, events[1..], t);
    }
  }

  lemma {:induction false} OrderedEarlier(from: nat, to: nat, events: seq<Event>, t: nat)
    requires from <= to && Ordered(to, events, t)
    ensures Ordered(from, events, t)
    decreases |events|
  {
    if events != [] && !events[0].Timer? {
      OrderedEarlier(from, to, events[1..], t);
    }
  }

  lemma OrderedLater(from: nat, events: seq<Event>, t: nat)
    requires events != [] && Ordered(from, events, t)
    ensures Ordered(from, events[1..], t)
  {
    if events[0].Timer? {
      OrderedEarlier(from, events[0].sentAt, events[1..], t);
    }
  }

  /** An answer ends the retries: whatever the loop could have seen after it is not looked at. */
  lemma {:induction false} AnswerEnds(p: Probe, events: seq<Event>, more: seq<Event>)
    ensures Run(p, events + [Answer] + more) == Run(p, events)
    decreases |events|
  {
    var all := events + [Answer] + more;
    if events == [] {
      assert all[0] == Answer;
    } else {
      assert all[0] == events[0] && all[1..] == events[1..] + [Answer] + more;
      if !events[0].Answer? {
        AnswerEnds(Step(p, events[0]), events[1..], more);
      }
    }
  }

  /** Anything else the socket delivers changes nothing. */
  lemma {:induction false} IgnoredSkipped(p: Probe, events: seq<Event>, more: seq<Event>)
    ensures Run(p, events + [Ignored] + more) == Run(p, events + more)
    decreases |events|
  {
    var all := events + [Ignored] + more;
    if events == [] {
      assert all[0] == Ignored && all[1..] == more && events + more == more;
    } else {
      assert all[0] == events[0] && all[1..] == events[1..] + [Ignored] + more;
      assert (events + more)[0] == events[0] && (events + more)[1..] == events[1..] + more;
      if !events[0].Answer? {
        IgnoredSkipped(Step(p, events[0]), events[1..], more);
      }
    }
  }

  /** Only datagrams the socket accepts are counted as sent, and all of them. */
  lemma {:induction false} DeliveredCounted(p: Probe, events: seq<Event>, delivered: bool)
    requires forall i :: 0 <= i < |events| && events[i].Timer? ==> events[i].delivered == delivered
    ensures var q := Run(p, events);
            q.attempts >= p.attempts && q.packetsSent == p.packetsSent + if delivered then q.attempts - p.attempts else 0
    decreases |events|
  {
    if events != [] && !events[0].Answer? {
      DeliveredCounted(Step(p, events[0]), events[1..], delivered);
    }
  }

  /** However the loop is scheduled, at most 6 + T/200 datagrams leave in the first T
      milliseconds. */
  lemma PacketBudget(delivered0: bool, delivered1: bool, last0: nat, events: seq<Event>, t: nat)
    requires Ordered(last0, events, t)
    ensures var p := Run(Started(delivered0, delivered1, last0), events);
            p.packetsSent <= p.attempts <= 6 + t / MS / 200
  {
    assert Earliest(0) == 0;
    var n := RunKeepsSchedule(Started(delivered0, delivered1, last0), 0, events, t);
    FirstIntervals();
    assert Earliest(n) <= t / MS;
    if n >= 6 {
      EarliestLate(n);
    } else if n == 5 {
      assert t / MS >= 262;
    }
  }

  /** A scheduler that fires every timer on time. */
  function OnTime(k: nat): seq<Event> {
    if k == 0 then [] else OnTime(k - 1) + [Timer(Earliest(k) * MS, Earliest(k) * MS, true)]
  }

  /** The budget is met with equality, so it cannot be improved. */
  lemma {:induction false} BudgetIsTight(k: nat)
    requires k >= 6
    ensures Run(Started(true, true, 0), OnTime(k)).attempts == 6 + Earliest(k) / 200
    ensures Ordered(0, OnTime(k), Earliest(k) * MS)
  {
    OnTimeRun(k);
    EarliestLate(k);
  }

  lemma {:induction false} OnTimeRun(k: nat)
    ensures Run(Started(true, true, 0), OnTime(k)) == Probe(Interval(k), Earliest(k) * MS, k + 2, k + 2)
    ensures Ordered(0, OnTime(k), Earliest(k) * MS)
    ensures forall i :: 0 <= i < |OnTime(k)| ==> OnTime(k)[i].Timer?
  {
    if k > 0 {
      OnTimeRun(k - 1);
      var e := Timer(Earliest(k) * MS, Earliest(k) * MS, true);
      RunAppend(Started(true, true, 0), OnTime(k - 1), e);
      OrderedAppend(0, OnTime(k - 1), Earliest(k - 1) * MS, e);
    }
  }

  lemma {:induction false} RunAppend(p: Probe, events: seq<Event>, e: Event)
    requires e.Timer? && forall i :: 0 <= i < |events| ==> events[i].Timer?
    ensures Run(p, events + [e]) == Step(Run(p, events), e)
    decreases |events|
  {
    if events == [] {
      assert events + [e] == [e];
      assert [e][1..] == [];
    } else {
      assert (events + [e])[1..] == events[1..] + [e];
      RunAppend(Step(p, events[0]), events[1..], e);
    }
  }

  lemma {:induction false} OrderedAppend(from: nat, events: seq<Event>, t: nat, e: Event)
    requires Ordered(from, events, t) && e.Timer? && t <= e.now == e.sentAt
    ensures Ordered(from, events + [e], e.now)
    decreases |events|
  {
    if events == [] {
      assert events + [e] == [e];
      assert [e][1..] == [];
    } else {
      assert (events + [e])[1..] == events[1..] + [e];
      OrderedAppend(if events[0].Timer? then events[0].sentAt else from, events[1..], t, e);
    }
  }
}

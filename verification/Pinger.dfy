/**
 * The ping engine (pkg/libgm/longpoll.go): the fields of dittoPinger, the sections of code that
 * change them under the lock, and what any interleaving of those sections tells the user.
 * Times are in seconds.
 */
module Pinger {
  import opened Basics

  const MIN_PING_INTERVAL := 30

  datatype Event = PhoneNotResponding | PhoneRespondingAgain | PingFailed(errorCount: int)

  /** lastPing is None for Go's zero time, which no interval is measured from. */
  datatype State = State(firstPingDone: bool, lastPing: Option<int>, pingFails: nat, notRespondingSent: bool)

  const INITIAL := State(false, None, 0, false)

  /** The sections that run under pingHandlingLock. */
  datatype Section =
    | OnRespond
    | OnTimeout(sendNotResponding: bool)
    | ShortCircuit
    | Send(now: int, fails: bool)

  predicate Skips(s: State, now: int) {
    s.lastPing.Some? && now - s.lastPing.value < MIN_PING_INTERVAL
  }

  /** The event that a section triggers, if any. */
  function Report(s: State, section: Section): Option<Event> {
    match section
    case OnRespond => if s.notRespondingSent || s.pingFails > 0 then Some(PhoneRespondingAgain) else None
    case OnTimeout(send) => if (!s.firstPingDone || send) && !s.notRespondingSent then Some(PhoneNotResponding) else None
    case ShortCircuit => if s.notRespondingSent then None else Some(PhoneNotResponding)
    case Send(now, fails) => if !Skips(s, now) && fails then Some(PingFailed(s.pingFails + 1)) else None
  }

  function AsSeq<T>(o: Option<T>): seq<T> {
    match o
    case None => []
    case Some(x) => [x]
  }

  function Next(s: State, section: Section): State {
    match section
    case OnRespond => s.(notRespondingSent := false, pingFails := 0, firstPingDone := true)
    case OnTimeout(send) => s.(notRespondingSent := s.notRespondingSent || !s.firstPingDone || send)
    case ShortCircuit => s.(notRespondingSent := true)
    case Send(now, fails) =>
      if Skips(s, now) then s
      else s.(lastPing := Some(now), pingFails := if fails then s.pingFails + 1 else s.pingFails)
  }

  datatype SendResult = Skipped | Failed | Sent

  /** The once-only switch that ends a family of pings. */
  class Resetter {
    var done: bool
    var closers: nat // goroutines that will close the channel

    constructor ()
      ensures !done && closers == 0
    {
      done, closers := false, 0;
    }

    method Done()
      modifies this
      ensures done && closers == old(closers) + if old(done) then 0 else 1
    {
      if !done {
        done := true;
        closers := closers + 1;
      }
    }
  }

  class DittoPinger {
    var firstPingDone: bool
    var lastPingTime: Option<int>
    var pingFails: nat
    var notRespondingSent: bool
    var triggered: seq<Event> // handed to the client's event handler so far

    function View(): State
      reads this
    {
      State(firstPingDone, lastPingTime, pingFails, notRespondingSent)
    }

    constructor ()
      ensures View() == INITIAL && triggered == []
    {
      firstPingDone, lastPingTime, pingFails, notRespondingSent := false, None, 0, false;
      triggered := [];
    }

    method OnRespond(reset: Resetter)
      modifies this, reset
      ensures View() == Next(old(View()), Section.OnRespond)
      ensures triggered == old(triggered) + AsSeq(Report(old(View()), Section.OnRespond))
      ensures reset.done && reset.closers == old(reset.closers) + if old(reset.done) then 0 else 1
    {
      if notRespondingSent {
        triggered := triggered + [PhoneRespondingAgain];
      } else if pingFails > 0 {
        triggered := triggered + [PhoneRespondingAgain];
      }
      notRespondingSent := false;
      pingFails := 0;
      firstPingDone := true;
      reset.Done();
    }

    method OnTimeout(sendNotResponding: bool)
      modifies this
      ensures View() == Next(old(View()), Section.OnTimeout(sendNotResponding))
      ensures triggered == old(triggered) + AsSeq(Report(old(View()), Section.OnTimeout(sendNotResponding)))
    {
      if (!firstPingDone || sendNotResponding) && !notRespondingSent {
        triggered := triggered + [PhoneNotResponding];
        notRespondingSent := true;
      }
    }

    /** The branch of WaitForResponse that a short circuit takes. */
    method OnShortCircuit()
      modifies this
      ensures View() == Next(old(View()), ShortCircuit)
      ensures triggered == old(triggered) + AsSeq(Report(old(View()), ShortCircuit))
    {
      if !notRespondingSent {
        triggered := triggered + [PhoneNotResponding];
        notRespondingSent := true;
      }
    }

    /** The locked part of Ping; fails says whether NotifyDittoActivity returns an error. */
    method Send(now: int, fails: bool) returns (result: SendResult)
      modifies this
      ensures View() == Next(old(View()), Section.Send(now, fails))
      ensures triggered == old(triggered) + AsSeq(Report(old(View()), Section.Send(now, fails)))
      ensures result == if Skips(old(View()), now) then Skipped else if fails then Failed else Sent
    {
      if lastPingTime.Some? && now - lastPingTime.value < MIN_PING_INTERVAL {
        return Skipped;
      }
      lastPingTime := Some(now);
      if fails {
        pingFails := pingFails + 1;
        triggered := triggered + [PingFailed(pingFails)];
        return Failed;
      }
      return Sent;
    }
  }

  // ----- Any interleaving of sections -----

  /** The events of a run, and the responses that came in. */
  datatype Mark = Event(event: Event) | Response

  function Marks(s: State, section: Section): seq<Mark> {
    (match Report(s, section)
     case None => []
     case Some(e) => [Event(e)])
    + if section.OnRespond? then [Response] else []
  }

  function StateAfter(sections: seq<Section>): State {
    if sections == [] then INITIAL
    else Next(StateAfter(sections[..|sections| - 1]), sections[|sections| - 1])
  }

  function Trace(sections: seq<Section>): seq<Mark> {
    if sections == [] then []
    else
      var before := sections[..|sections| - 1];
      Trace(before) + Marks(StateAfter(before), sections[|sections| - 1])
  }

  /** The consumer's flag: PhoneResponding, true when a connection starts. */
  function PhoneResponding(trace: seq<Mark>): bool {
    if trace == [] then true
    else match trace[|trace| - 1]
      case Event(PhoneNotResponding) => false
      case Event(PhoneRespondingAgain) => true
      case _ => PhoneResponding(trace[..|trace| - 1])
  }

  /** Since the last response, or the start, the user was told of trouble. */
  predicate Trouble(trace: seq<Mark>) {
    trace != [] &&
    match trace[|trace| - 1]
    case Response => false
    case Event(PhoneNotResponding) => true
    case Event(PingFailed(_)) => true
    case _ => Trouble(trace[..|trace| - 1])
  }

  /** What may be reported after the given trace. */
  predicate Permitted(trace: seq<Mark>, m: Mark) {
    && (m == Event(PhoneNotResponding) ==> PhoneResponding(trace))
    && (m == Event(PhoneRespondingAgain) ==> Trouble(trace))
  }

  predicate WellReported(trace: seq<Mark>) {
    trace == [] ||
    (WellReported(trace[..|trace| - 1]) && Permitted(trace[..|trace| - 1], trace[|trace| - 1]))
  }

  /** The three facts about a trace that the state knows. */
  predicate Agrees(trace: seq<Mark>, reported: bool, trouble: bool) {
    && WellReported(trace)
    && PhoneResponding(trace) == !reported
    && Trouble(trace) == trouble
  }

  lemma TraceStep(trace: seq<Mark>, m: Mark, reported: bool, trouble: bool)
    requires Agrees(trace, reported, trouble)
    requires m == Event(PhoneNotResponding) ==> !reported
    requires m == Event(PhoneRespondingAgain) ==> trouble
    ensures Agrees(trace + [m],
      m == Event(PhoneNotResponding) || (reported && m != Event(PhoneRespondingAgain)),
      m != Response && (trouble || m == Event(PhoneNotResponding) || (m.Event? && m.event.PingFailed?)))
  {
    var longer := trace + [m];
    assert longer[..|longer| - 1] == trace && longer[|longer| - 1] == m;
  }

  predicate Knows(s: State, trace: seq<Mark>) {
    Agrees(trace, s.notRespondingSent, s.notRespondingSent || s.pingFails > 0)
  }

  lemma SectionKeeps(s: State, trace: seq<Mark>, section: Section)
    requires Knows(s, trace)
    ensures Knows(Next(s, section), trace + Marks(s, section))
  {
    var trouble := s.notRespondingSent || s.pingFails > 0;
    match Report(s, section)
    case None =>
      assert trace + ([] + [Response]) == trace + [Response];
      assert trace + ([] + []) == trace;
      if section.OnRespond? {
        TraceStep(trace, Response, s.notRespondingSent, trouble);
      }
    case Some(e) =>
      TraceStep(trace, Event(e), s.notRespondingSent, trouble);
      if section.OnRespond? {
        TraceStep(trace + [Event(e)], Response, false, trouble);
        assert trace + Marks(s, section) == trace + [Event(e)] + [Response];
      } else {
        assert trace + Marks(s, section) == trace + [Event(e)];
      }
  }

  /**
   * In every interleaving the consumer's flag is the negation of notRespondingSent, trouble is
   * outstanding exactly when the next response will report recovery, and every report is permitted.
   */
  lemma {:induction false} ReportsAreSound(sections: seq<Section>)
    ensures var s := StateAfter(sections);
      Agrees(Trace(sections), s.notRespondingSent, s.notRespondingSent || s.pingFails > 0)
  {
    if sections != [] {
      var before := sections[..|sections| - 1];
      ReportsAreSound(before);
      SectionKeeps(StateAfter(before), Trace(before), sections[|sections| - 1]);
    }
  }

  lemma {:induction false} PermittedAt(trace: seq<Mark>, j: nat)
    requires WellReported(trace) && j < |trace|
    ensures Permitted(trace[..j], trace[j])
  {
    if j < |trace| - 1 {
      PermittedAt(trace[..|trace| - 1], j);
      assert trace[..|trace| - 1][..j] == trace[..j];
    }
  }

  lemma {:induction false} RecoveryBetween(trace: seq<Mark>, i: nat, j: nat) returns (k: nat)
    requires i < j <= |trace| && trace[i] == Event(PhoneNotResponding) && PhoneResponding(trace[..j])
    ensures i < k < j && trace[k] == Event(PhoneRespondingAgain)
  {
    assert trace[..j][..j - 1] == trace[..j - 1];
    if trace[j - 1] == Event(PhoneRespondingAgain) {
      k := j - 1;
    } else {
      k := RecoveryBetween(trace, i, j - 1);
    }
  }

  lemma {:induction false} TroubleBetween(trace: seq<Mark>, j: nat) returns (k: nat)
    requires j <= |trace| && Trouble(trace[..j])
    ensures k < j && (trace[k] == Event(PhoneNotResponding) || (trace[k].Event? && trace[k].event.PingFailed?))
    ensures forall i :: k < i < j ==> trace[i] != Response
  {
    assert trace[..j][..j - 1] == trace[..j - 1];
    if trace[j - 1] == Event(PhoneNotResponding) || (trace[j - 1].Event? && trace[j - 1].event.PingFailed?) {
      k := j - 1;
    } else {
      k := TroubleBetween(trace, j - 1);
    }
  }

  /**
   * The phone is never reported silent twice without a recovery in between, and a recovery is only
   * reported after a silence or a failed ping that no response has followed yet.
   */
  lemma NoRepeatedReports(sections: seq<Section>, i: nat, j: nat)
    requires j < |Trace(sections)|
    ensures var trace := Trace(sections);
      && (i < j && trace[i] == Event(PhoneNotResponding) && trace[j] == Event(PhoneNotResponding) ==>
            exists k :: i < k < j && trace[k] == Event(PhoneRespondingAgain))
      && (trace[j] == Event(PhoneRespondingAgain) ==>
            exists k :: 0 <= k < j
              && (trace[k] == Event(PhoneNotResponding) || (trace[k].Event? && trace[k].event.PingFailed?))
              && Response !in trace[k..j])
  {
    var trace := Trace(sections);
    ReportsAreSound(sections);
    PermittedAt(trace, j);
    if i < j && trace[i] == Event(PhoneNotResponding) && trace[j] == Event(PhoneNotResponding) {
      var k := RecoveryBetween(trace, i, j);
    }
    if trace[j] == Event(PhoneRespondingAgain) {
      var k := TroubleBetween(trace, j);
      assert Response !in trace[k..j];
    }
  }

  // ----- What a section tells, by what was told and answered before -----

  /** The failed pings that were reported since the last response. */
  function FailsSinceResponse(trace: seq<Mark>): nat {
    if trace == [] then 0
    else match trace[|trace| - 1]
      case Response => 0
      case Event(PingFailed(_)) => FailsSinceResponse(trace[..|trace| - 1]) + 1
      case _ => FailsSinceResponse(trace[..|trace| - 1])
  }

  /** When a ping was last attempted. */
  function LastAttempt(sections: seq<Section>): Option<int> {
    if sections == [] then None
    else
      var before, last := LastAttempt(sections[..|sections| - 1]), sections[|sections| - 1];
      if last.Send? && MayAttempt(before, last.now) then Some(last.now) else before
  }

  /** Thirty seconds have passed since the last attempt. */
  predicate MayAttempt(last: Option<int>, now: int) {
    last.None? || now - last.value >= 30
  }

  lemma LastOfTrace(trace: seq<Mark>, m: Mark)
    ensures Response in trace + [m] <==> Response in trace || m == Response
    ensures FailsSinceResponse(trace + [m]) ==
      if m == Response then 0 else FailsSinceResponse(trace) + if m.Event? && m.event.PingFailed? then 1 else 0
  {
    var longer := trace + [m];
    assert longer[..|longer| - 1] == trace && longer[|longer| - 1] == m;
  }

  lemma SectionMarks(s: State, trace: seq<Mark>, section: Section)
    requires s.firstPingDone <==> Response in trace
    requires s.pingFails == FailsSinceResponse(trace)
    ensures var longer, next := trace + Marks(s, section), Next(s, section);
      (next.firstPingDone <==> Response in longer) && next.pingFails == FailsSinceResponse(longer)
  {
    match Report(s, section)
    case None =>
      assert trace + ([] + [Response]) == trace + [Response];
      assert trace + ([] + []) == trace;
      LastOfTrace(trace, Response);
    case Some(e) =>
      LastOfTrace(trace, Event(e));
      if section.OnRespond? {
        LastOfTrace(trace + [Event(e)], Response);
        assert trace + Marks(s, section) == trace + [Event(e)] + [Response];
      } else {
        assert trace + Marks(s, section) == trace + [Event(e)];
      }
  }

  /** The four fields hold nothing but what can be read off the history. */
  lemma {:induction false} StateIsHistory(sections: seq<Section>)
    ensures var s, trace := StateAfter(sections), Trace(sections);
      && (s.firstPingDone <==> Response in trace)
      && s.lastPing == LastAttempt(sections)
      && s.pingFails == FailsSinceResponse(trace)
      && (s.notRespondingSent <==> !PhoneResponding(trace))
  {
    ReportsAreSound(sections);
    if sections != [] {
      var before, last := sections[..|sections| - 1], sections[|sections| - 1];
      StateIsHistory(before);
      SectionMarks(StateAfter(before), Trace(before), last);
      AttemptIsRecorded(StateAfter(before), last);
    }
  }

  lemma AttemptIsRecorded(s: State, section: Section)
    ensures Next(s, section).lastPing ==
      if section.Send? && MayAttempt(s.lastPing, section.now) then Some(section.now) else s.lastPing
  {
  }

  /**
   * In every interleaving: a timeout tells of the silent phone if it is asked to or no response has
   * ever come, and a short circuit always, unless the user knows already. A response tells of the
   * recovery exactly if there was trouble. A send tells of its failure, numbered from the last response on.
   */
  lemma EachSectionTells(sections: seq<Section>, section: Section)
    ensures var before, after := Trace(sections), Trace(sections + [section]);
      match section
      case OnTimeout(send) =>
        after == before +
          if PhoneResponding(before) && (send || Response !in before) then [Event(PhoneNotResponding)] else []
      case ShortCircuit => after == before + if PhoneResponding(before) then [Event(PhoneNotResponding)] else []
      case OnRespond => after == before + (if Trouble(before) then [Event(PhoneRespondingAgain)] else []) + [Response]
      case Send(now, fails) =>
        after == before +
          if fails && MayAttempt(LastAttempt(sections), now) then [Event(PingFailed(FailsSinceResponse(before) + 1))]
          else []
  {
    StateIsHistory(sections);
    ReportsAreSound(sections);
    assert (sections + [section])[..|sections|] == sections;
  }

  /**
   * What the consumer's flag and the outstanding trouble are behind a section. A timeout that is not
   * asked to tell, once a response has come, changes nothing at all.
   */
  lemma FlagBehindSection(sections: seq<Section>, section: Section)
    ensures var before, after := Trace(sections), Trace(sections + [section]);
      match section
      case OnTimeout(send) => if send || Response !in before then !PhoneResponding(after) else after == before
      case ShortCircuit => !PhoneResponding(after)
      case OnRespond => PhoneResponding(after) && !Trouble(after)
      case Send(now, fails) =>
        && PhoneResponding(after) == PhoneResponding(before)
        && (Trouble(after) <==> Trouble(before) || (fails && MayAttempt(LastAttempt(sections), now)))
  {
    var longer := sections + [section];
    assert longer[..|longer| - 1] == sections;
    StateIsHistory(sections);
    ReportsAreSound(sections);
    ReportsAreSound(longer);
    if section.OnTimeout? && !section.sendNotResponding && Response in Trace(sections) {
      EachSectionTells(sections, section);
    }
  }
}

/**
 * The ping engine over time (pkg/libgm/longpoll.go): the loop, its root waiter, the waiters of
 * re-pings, their timers and tickers, and the switch that ends a family of pings, as a machine
 * that takes one atomic step at a time. Times are in seconds.
 */
module PingerRun {
  import opened Basics
  import opened Pinger

  const DEFAULT_PING_TIMEOUT := 60
  const SHORT_PING_TIMEOUT := 10
  const FIRST_REPING := 60
  const MAX_REPING_PERIOD := 3840
  const RESET_DELAY := 5

  /** Re-ping number n of a root waiter, and what was known when it went out. */
  datatype Reping = Reping(n: nat, count: nat, shorts: nat, at: int, late: bool, result: SendResult,
                           rootSentAt: int, rootTimeout: int, rootTimedOutAt: int)

  datatype Phase =
    | First
    | Backoff(since: int, count: nat, ticks: nat, shorts: nat, tickAt: int, period: int, late: bool)
    | Gone

  /** One call of WaitForResponse; origin is None for the root waiter, whose timeout count starts at 0. */
  datatype Waiter = Waiter(family: nat, origin: Option<Reping>, timeout: int, sentAt: int, phase: Phase)

  function InitialCount(w: Waiter): nat {
    match w.origin
    case None => 0
    case Some(r) => r.count
  }

  datatype Reset = Reset(doneAt: Option<int>, closers: nat, closed: nat)

  /** A PhoneNotResponding event: when, by which waiter, and how. */
  datatype Silence = Silence(at: int, from: Waiter, shortCircuit: bool, afterFirstPing: bool)

  datatype World = World(
    now: int, pinger: State, sections: seq<Section>,
    loop: Option<nat>, waiters: seq<Waiter>, resets: seq<Reset>, stopped: bool,
    sends: seq<int>, repings: seq<Reping>, silences: seq<Silence>)

  const START := World(0, INITIAL, [], None, [], [], false, [], [], [])

  datatype Step =
    | Advance(seconds: nat)
    | LoopPing(short: bool, fails: bool)
    | Answer(w: nat)
    | Expire(w: nat)
    | Tick(w: nat, waited: nat, fails: bool) // the lock was free only that long after the tick
    | ShortCircuited(w: nat)
    | CloseReset(family: nat)
    | SeeReset(w: nat)
    | Stop
    | SeeStop(w: nat)

  predicate Waiting(s: World, w: nat) {
    w < |s.waiters| && s.waiters[w].phase != Gone
  }

  predicate Enabled(s: World, step: Step) {
    match step
    case Advance(_) => true
    case LoopPing(_, _) => s.loop == None // a select that finds the stop ready too may still take the timer
    case Answer(w) => Waiting(s, w)
    case Expire(w) => Waiting(s, w) && s.waiters[w].phase == First && s.now >= s.waiters[w].sentAt + s.waiters[w].timeout
    case Tick(w, waited, _) =>
      && Waiting(s, w) && s.waiters[w].phase.Backoff?
      && InitialCount(s.waiters[w]) == 0 // else there is no ticker
      && s.now - waited >= s.waiters[w].phase.tickAt
    case ShortCircuited(w) => Waiting(s, w) && s.waiters[w].phase.Backoff?
    case CloseReset(f) =>
      && f < |s.resets| && s.resets[f].closers > 0
      && s.resets[f].doneAt.Some? && s.now >= s.resets[f].doneAt.value + RESET_DELAY
    case SeeReset(w) => Waiting(s, w) && s.waiters[w].family < |s.resets| && s.resets[s.waiters[w].family].closed > 0
    case Stop => true
    case SeeStop(w) => Waiting(s, w) && s.stopped
  }

  /** Runs a locked section; a PhoneNotResponding it triggers is put down to the waiter it ran for. */
  function Locked(s: World, section: Section, from: Waiter): World {
    s.(pinger := Next(s.pinger, section), sections := s.sections + [section],
       silences := s.silences + if Report(s.pinger, section) == Some(PhoneNotResponding)
                                then [Silence(s.now, from, section.ShortCircuit?, s.pinger.firstPingDone)] else [])
  }

  function SetPhase(s: World, w: nat, phase: Phase): World
    requires w < |s.waiters|
  {
    s.(waiters := s.waiters[w := s.waiters[w].(phase := phase)],
       loop := if phase == Gone && s.loop == Some(w) then None else s.loop)
  }

  function ResultOf(s: World, fails: bool): SendResult {
    if Skips(s.pinger, s.now) then Skipped else if fails then Failed else Sent
  }

  /** Ping: the locked send, and the waiter it starts when a ping went out. */
  function SendPing(s: World, w: Waiter, fails: bool): World {
    var result := ResultOf(s, fails);
    var s' := Locked(s, Section.Send(s.now, fails), w);
    s'.(sends := if result == Skipped then s.sends else s.sends + [s.now],
        waiters := if result == Sent then s.waiters + [w] else s.waiters)
  }

  function MarkDone(r: Reset, now: int): Reset {
    if r.doneAt.Some? then r else Reset(Some(now), r.closers + 1, r.closed)
  }

  function Perform(s: World, alertTimeoutCount: nat, step: Step): World
    requires Enabled(s, step)
  {
    match step
    case Advance(d) => s.(now := s.now + d)
    case LoopPing(short, fails) =>
      var w := Waiter(|s.resets|, None, if short then SHORT_PING_TIMEOUT else DEFAULT_PING_TIMEOUT, s.now, First);
      var s' := SendPing(s, w, fails);
      s'.(resets := s.resets + [Reset(None, 0, 0)],
          loop := if ResultOf(s, fails) == Sent then Some(|s.waiters|) else None)
    case Answer(w) =>
      var f := s.waiters[w].family;
      var s' := SetPhase(Locked(s, Section.OnRespond, s.waiters[w]), w, Gone);
      if f < |s.resets| then s'.(resets := s.resets[f := MarkDone(s.resets[f], s.now)]) else s'
    case Expire(w) =>
      var waiter := s.waiters[w];
      var alert := waiter.timeout == SHORT_PING_TIMEOUT || InitialCount(waiter) >= alertTimeoutCount;
      SetPhase(Locked(s, Section.OnTimeout(alert), waiter), w, Expired(waiter, s.now))
    case Tick(w, waited, fails) =>
      var r := RepingOf(s, w, fails);
      var s' := SendPing(s, SubWaiter(s.waiters[w].family, r), fails);
      SetPhase(s'.(repings := s.repings + [r]), w, AfterTick(s.waiters[w].phase, s.now, waited))
    case ShortCircuited(w) =>
      SetPhase(Locked(s, Section.ShortCircuit, s.waiters[w]), w, ShortCut(s.waiters[w].phase))
    case CloseReset(f) =>
      var r := s.resets[f];
      s.(resets := s.resets[f := r.(closers := r.closers - 1, closed := r.closed + 1)])
    case SeeReset(w) => SetPhase(s, w, Gone)
    case Stop => s.(stopped := true)
    case SeeStop(w) => SetPhase(s, w, Gone)
  }

  function ShortCut(b: Phase): Phase
    requires b.Backoff?
  {
    b.(count := b.count + 1, shorts := b.shorts + 1)
  }

  /** What the root waiter w sends when its ticker fires. */
  function RepingOf(s: World, w: nat, fails: bool): Reping
    requires w < |s.waiters| && s.waiters[w].phase.Backoff?
  {
    var waiter, b := s.waiters[w], s.waiters[w].phase;
    Reping(b.ticks + 1, b.count, b.shorts, s.now, b.late || s.now > b.tickAt, ResultOf(s, fails),
           waiter.sentAt, waiter.timeout, b.since)
  }

  function SubWaiter(family: nat, r: Reping): Waiter {
    Waiter(family, Some(r), DEFAULT_PING_TIMEOUT, r.at, First)
  }

  /** A waiter that timed out backs off; only the ticker of a root waiter is ever read. */
  function Expired(waiter: Waiter, now: int): Phase {
    Backoff(now, InitialCount(waiter) + 1, 0, 0, now + FIRST_REPING, FIRST_REPING, false)
  }

  /**
   * The period doubles up to the maximum, counted from the tick being handled; after that the
   * ticker runs on. A tick that is handled late may find the next one already waiting. The ticker is
   * reset when the tick is received, before the ping waits for the lock.
   */
  function AfterTick(b: Phase, now: int, waited: nat): Phase
    requires b.Backoff?
  {
    if b.period < MAX_REPING_PERIOD then
      b.(count := b.count + 1, ticks := b.ticks + 1, period := 2 * b.period, tickAt := now - waited + 2 * b.period,
         late := b.late || now > b.tickAt)
    else
      b.(count := b.count + 1, ticks := b.ticks + 1, tickAt := b.tickAt + b.period, late := b.late || now > b.tickAt)
  }

  /** Steps that are not possible when their turn comes do nothing. */
  function Do(s: World, alertTimeoutCount: nat, step: Step): World {
    if Enabled(s, step) then Perform(s, alertTimeoutCount, step) else s
  }

  function After(alertTimeoutCount: nat, steps: seq<Step>): World {
    if steps == [] then START
    else Do(After(alertTimeoutCount, steps[..|steps| - 1]), alertTimeoutCount, steps[|steps| - 1])
  }

  // ----- The re-ping schedule -----

  function Period(ticks: nat): int {
    if ticks == 0 then FIRST_REPING
    else if Period(ticks - 1) < MAX_REPING_PERIOD then 2 * Period(ticks - 1)
    else Period(ticks - 1)
  }

  /** When re-ping n is due, counted from the timeout of the root ping. */
  function Due(n: nat): int {
    if n == 0 then 0 else Due(n - 1) + Period(n - 1)
  }

  function MinutesUntil(n: nat): int {
    if n <= 7 then Pow2(n) - 1 else 127 + 64 * (n - 7)
  }

  /** After 1, 3, 7, ... 127 minutes, and every 64 minutes from then on. */
  lemma {:induction false} ScheduleIs(n: nat)
    ensures Period(n) == if n <= 6 then 60 * Pow2(n) else 3840
    ensures Due(n) == 60 * MinutesUntil(n)
  {
    if n > 0 {
      ScheduleIs(n - 1);
    }
    assert Pow2(3) == 8;
    assert Pow2(5) == 32;
    assert Pow2(7) == 128;
  }

  lemma {:induction false} DueGrows(m: nat, n: nat)
    requires m <= n
    ensures Due(m) <= Due(n)
  {
    if m < n {
      ScheduleIs(n - 1);
      Pow2Positive(n - 1);
      DueGrows(m, n - 1);
    }
  }

  // ----- What holds in every reachable world -----

  predicate RepingOk(r: Reping) {
    && r.n >= 1
    && r.count == r.n + r.shorts
    && r.rootTimedOutAt >= r.rootSentAt + r.rootTimeout
    && r.at >= r.rootTimedOutAt + Due(r.n)
    && (!r.late ==> r.at == r.rootTimedOutAt + Due(r.n) && r.result != Skipped)
  }

  predicate BackoffOk(w: Waiter, now: int)
    requires w.phase.Backoff?
  {
    var b := w.phase;
    && w.sentAt + w.timeout <= b.since <= now
    && b.count == InitialCount(w) + 1 + b.ticks + b.shorts
    && b.period == Period(b.ticks)
    && b.tickAt >= b.since + Due(b.ticks + 1)
    && (!b.late ==> b.tickAt == b.since + Due(b.ticks + 1))
  }

  predicate WaiterOk(w: Waiter, now: int) {
    && (w.timeout == DEFAULT_PING_TIMEOUT || w.timeout == SHORT_PING_TIMEOUT)
    && (w.origin.Some? ==> RepingOk(w.origin.value) && w.sentAt == w.origin.value.at && w.timeout == DEFAULT_PING_TIMEOUT)
    && w.sentAt <= now
    && (w.phase.Backoff? ==> BackoffOk(w, now))
  }

  predicate SilenceOk(silence: Silence, alertTimeoutCount: nat) {
    !silence.shortCircuit && silence.afterFirstPing && silence.from.timeout == DEFAULT_PING_TIMEOUT ==>
      && InitialCount(silence.from) >= alertTimeoutCount
      && (silence.from.origin.Some? ==>
          RepingOk(silence.from.origin.value) && silence.from.sentAt == silence.from.origin.value.at)
      && silence.at >= silence.from.sentAt + silence.from.timeout
  }

  predicate ResetOk(r: Reset) {
    r.closers + r.closed == if r.doneAt.Some? then 1 else 0
  }

  /** The send attempts, oldest first, keep the minimum interval. */
  predicate Spaced(sends: seq<int>) {
    forall i :: 0 < i < |sends| ==> sends[i] - sends[i - 1] >= MIN_PING_INTERVAL
  }

  predicate LastSend(s: World) {
    if s.sends == [] then s.pinger.lastPing == None
    else s.pinger.lastPing == Some(s.sends[|s.sends| - 1]) && s.sends[|s.sends| - 1] <= s.now
  }

  predicate OneRoot(s: World) {
    forall i :: 0 <= i < |s.waiters| && s.waiters[i].origin == None && s.waiters[i].phase != Gone ==> s.loop == Some(i)
  }

  /**
   * The loop waits for at most one root waiter, and while its ticks are on time no other ping goes
   * out before the next is due.
   */
  predicate LoopOk(s: World) {
    && OneRoot(s)
    && (s.loop.Some? ==>
        && s.loop.value < |s.waiters|
        && RootOk(s.waiters[s.loop.value], s.pinger.lastPing))
  }

  predicate RootOk(w: Waiter, lastPing: Option<int>) {
    && w.origin == None && w.phase != Gone && lastPing.Some?
    && (w.phase == First ==> lastPing.value <= w.sentAt)
    && (w.phase.Backoff? && !w.phase.late ==> w.phase.tickAt >= lastPing.value + FIRST_REPING)
  }

  predicate AllWaitersOk(s: World) {
    forall i :: 0 <= i < |s.waiters| ==> WaiterOk(s.waiters[i], s.now)
  }

  predicate RecordsOk(s: World, alertTimeoutCount: nat) {
    && (forall i :: 0 <= i < |s.repings| ==> RepingOk(s.repings[i]))
    && (forall i :: 0 <= i < |s.silences| ==> SilenceOk(s.silences[i], alertTimeoutCount))
    && (forall i :: 0 <= i < |s.resets| ==> ResetOk(s.resets[i]))
  }

  predicate Inv(s: World, alertTimeoutCount: nat) {
    && s.pinger == StateAfter(s.sections)
    && Spaced(s.sends) && LastSend(s)
    && LoopOk(s)
    && AllWaitersOk(s)
    && RecordsOk(s, alertTimeoutCount)
  }

  lemma LockedKeeps(s: World, section: Section, from: Waiter, alertTimeoutCount: nat)
    requires Inv(s, alertTimeoutCount) && !section.Send?
    requires Report(s.pinger, section) == Some(PhoneNotResponding) ==>
      SilenceOk(Silence(s.now, from, section.ShortCircuit?, s.pinger.firstPingDone), alertTimeoutCount)
    ensures Inv(Locked(s, section, from), alertTimeoutCount)
  {
    var s' := Locked(s, section, from);
    assert s'.sections[..|s'.sections| - 1] == s.sections;
  }

  lemma SetPhaseKeeps(s: World, w: nat, phase: Phase, alertTimeoutCount: nat)
    requires Inv(s, alertTimeoutCount) && w < |s.waiters|
    requires s.waiters[w].phase != Gone && phase != First
    requires phase.Backoff? ==>
      var waiter := s.waiters[w].(phase := phase);
      BackoffOk(waiter, s.now) && (waiter.origin == None ==> RootOk(waiter, s.pinger.lastPing))
    ensures Inv(SetPhase(s, w, phase), alertTimeoutCount)
  {
  }

  /** A ping is sent by the loop when it waits for nobody, or by the root waiter. */
  lemma SendPingKeeps(s: World, w: Waiter, fails: bool, alertTimeoutCount: nat)
    requires Inv(s, alertTimeoutCount)
    requires WaiterOk(w, s.now) && w.phase == First && w.sentAt == s.now
    requires s.loop.Some? ==> s.waiters[s.loop.value].phase.Backoff? && w.origin.Some?
    ensures var s' := SendPing(s, w, fails);
      && s'.pinger == StateAfter(s'.sections)
      && Spaced(s'.sends) && LastSend(s')
      && AllWaitersOk(s')
      && RecordsOk(s', alertTimeoutCount)
      && (forall i :: 0 <= i < |s.waiters| ==> s'.waiters[i] == s.waiters[i])
      && (ResultOf(s, fails) == Sent ==> s'.waiters == s.waiters + [w])
      && (ResultOf(s, fails) != Sent ==> s'.waiters == s.waiters)
      && s'.pinger.lastPing == (if ResultOf(s, fails) == Skipped then s.pinger.lastPing else Some(s.now))
  {
    var s' := SendPing(s, w, fails);
    assert s'.sections[..|s'.sections| - 1] == s.sections;
  }

  // ----- One lemma a step -----

  lemma AdvanceKeeps(s: World, d: nat, alertTimeoutCount: nat)
    requires Inv(s, alertTimeoutCount)
    ensures Inv(s.(now := s.now + d), alertTimeoutCount)
  {
    var s' := s.(now := s.now + d);
    forall i | 0 <= i < |s'.waiters|
      ensures WaiterOk(s'.waiters[i], s'.now)
    {
      assert WaiterOk(s.waiters[i], s.now);
    }
  }

  lemma LoopPingKeeps(s: World, short: bool, fails: bool, alertTimeoutCount: nat)
    requires Inv(s, alertTimeoutCount) && Enabled(s, LoopPing(short, fails))
    ensures Inv(Perform(s, alertTimeoutCount, LoopPing(short, fails)), alertTimeoutCount)
  {
    var w := Waiter(|s.resets|, None, if short then SHORT_PING_TIMEOUT else DEFAULT_PING_TIMEOUT, s.now, First);
    SendPingKeeps(s, w, fails, alertTimeoutCount);
    LoopWaits(s, SendPing(s, w, fails), w, ResultOf(s, fails) == Sent, alertTimeoutCount);
  }

  /** The loop behind its ping, with a new family. */
  lemma LoopWaits(s: World, sent: World, w: Waiter, waits: bool, alertTimeoutCount: nat)
    requires OneRoot(s) && s.loop == None && w.origin == None && w.phase == First
    requires sent.waiters == s.waiters + (if waits then [w] else [])
    requires sent.pinger == StateAfter(sent.sections) && Spaced(sent.sends) && LastSend(sent)
    requires AllWaitersOk(sent) && RecordsOk(sent, alertTimeoutCount)
    requires waits ==> sent.pinger.lastPing == Some(w.sentAt)
    ensures Inv(sent.(resets := sent.resets + [Reset(None, 0, 0)], loop := if waits then Some(|s.waiters|) else None),
                alertTimeoutCount)
  {
    var s' := sent.(resets := sent.resets + [Reset(None, 0, 0)], loop := if waits then Some(|s.waiters|) else None);
    assert OneRoot(s');
    assert forall i :: 0 <= i < |s'.resets| ==> ResetOk(s'.resets[i]);
  }

  lemma MarkDoneKeeps(s: World, f: nat, alertTimeoutCount: nat)
    requires Inv(s, alertTimeoutCount) && f < |s.resets|
    ensures Inv(s.(resets := s.resets[f := MarkDone(s.resets[f], s.now)]), alertTimeoutCount)
  {
  }

  lemma AnswerKeeps(s: World, w: nat, alertTimeoutCount: nat)
    requires Inv(s, alertTimeoutCount) && Enabled(s, Answer(w))
    ensures Inv(Perform(s, alertTimeoutCount, Answer(w)), alertTimeoutCount)
  {
    var locked := Locked(s, Section.OnRespond, s.waiters[w]);
    LockedKeeps(s, Section.OnRespond, s.waiters[w], alertTimeoutCount);
    SetPhaseKeeps(locked, w, Gone, alertTimeoutCount);
    if s.waiters[w].family < |s.resets| {
      MarkDoneKeeps(SetPhase(locked, w, Gone), s.waiters[w].family, alertTimeoutCount);
    }
  }

  lemma ExpiredOk(waiter: Waiter, now: int, firstPingDone: bool, alertTimeoutCount: nat)
    requires WaiterOk(waiter, now) && now >= waiter.sentAt + waiter.timeout
    ensures BackoffOk(waiter.(phase := Expired(waiter, now)), now)
    ensures var alert := waiter.timeout == SHORT_PING_TIMEOUT || InitialCount(waiter) >= alertTimeoutCount;
      !firstPingDone || alert ==> SilenceOk(Silence(now, waiter, false, firstPingDone), alertTimeoutCount)
  {
    assert Period(0) == FIRST_REPING && Due(0) == 0 && Due(1) == FIRST_REPING;
  }

  lemma ExpireKeeps(s: World, w: nat, alertTimeoutCount: nat)
    requires Inv(s, alertTimeoutCount) && Enabled(s, Expire(w))
    ensures Inv(Perform(s, alertTimeoutCount, Expire(w)), alertTimeoutCount)
  {
    var waiter := s.waiters[w];
    assert WaiterOk(waiter, s.now);
    var alert := waiter.timeout == SHORT_PING_TIMEOUT || InitialCount(waiter) >= alertTimeoutCount;
    ExpiredOk(waiter, s.now, s.pinger.firstPingDone, alertTimeoutCount);
    LockedKeeps(s, Section.OnTimeout(alert), waiter, alertTimeoutCount);
    SetPhaseKeeps(Locked(s, Section.OnTimeout(alert), waiter), w, Expired(waiter, s.now), alertTimeoutCount);
  }

  /** Every re-ping carries a count, so a waiter without one is the root waiter. */
  lemma CountlessIsRoot(s: World, w: nat, alertTimeoutCount: nat)
    requires Inv(s, alertTimeoutCount) && Waiting(s, w) && InitialCount(s.waiters[w]) == 0
    ensures s.waiters[w].origin == None && s.loop == Some(w)
  {
    assert WaiterOk(s.waiters[w], s.now);
  }

  lemma TickedRepingOk(s: World, w: nat, waited: nat, fails: bool, alertTimeoutCount: nat)
    requires Inv(s, alertTimeoutCount) && Enabled(s, Tick(w, waited, fails))
    ensures RepingOk(RepingOf(s, w, fails)) && s.loop == Some(w)
  {
    CountlessIsRoot(s, w, alertTimeoutCount);
    assert WaiterOk(s.waiters[w], s.now);
    assert s.loop == Some(w) && RootOk(s.waiters[w], s.pinger.lastPing);
  }

  lemma AfterTickOk(waiter: Waiter, now: int, waited: nat)
    requires waiter.phase.Backoff? && BackoffOk(waiter, now) && now - waited >= waiter.phase.tickAt
    ensures var after := waiter.(phase := AfterTick(waiter.phase, now, waited));
      && BackoffOk(after, now)
      && (!after.phase.late ==> after.phase.tickAt >= now + FIRST_REPING)
  {
    var b := waiter.phase;
    assert Due(b.ticks + 2) == Due(b.ticks + 1) + Period(b.ticks + 1);
    ScheduleIs(b.ticks);
    ScheduleIs(b.ticks + 1);
    Pow2Positive(b.ticks);
  }

  lemma BackoffKeepsWaiters(s: World, w: nat, phase: Phase)
    requires AllWaitersOk(s) && w < |s.waiters| && phase.Backoff? && BackoffOk(s.waiters[w].(phase := phase), s.now)
    ensures AllWaitersOk(SetPhase(s, w, phase))
  {
    assert WaiterOk(s.waiters[w], s.now);
  }

  lemma BackoffKeepsLoop(s: World, w: nat, phase: Phase)
    requires OneRoot(s) && w < |s.waiters| && s.loop == Some(w) && phase.Backoff?
    requires RootOk(s.waiters[w].(phase := phase), s.pinger.lastPing)
    ensures LoopOk(SetPhase(s, w, phase))
  {
  }

  /** The root waiter goes on after its ping has been sent. */
  lemma RootGoesOn(sent: World, w: nat, phase: Phase, alertTimeoutCount: nat)
    requires sent.pinger == StateAfter(sent.sections) && Spaced(sent.sends) && LastSend(sent)
    requires AllWaitersOk(sent) && RecordsOk(sent, alertTimeoutCount)
    requires OneRoot(sent) && w < |sent.waiters| && sent.loop == Some(w)
    requires phase.Backoff? && BackoffOk(sent.waiters[w].(phase := phase), sent.now)
    requires RootOk(sent.waiters[w].(phase := phase), sent.pinger.lastPing)
    ensures Inv(SetPhase(sent, w, phase), alertTimeoutCount)
  {
    BackoffKeepsWaiters(sent, w, phase);
    BackoffKeepsLoop(sent, w, phase);
  }

  lemma RecordKeeps(s: World, r: Reping, alertTimeoutCount: nat)
    requires AllWaitersOk(s) && RecordsOk(s, alertTimeoutCount) && LastSend(s) && OneRoot(s) && RepingOk(r)
    ensures var s' := s.(repings := s.repings + [r]);
      AllWaitersOk(s') && RecordsOk(s', alertTimeoutCount) && LastSend(s') && OneRoot(s')
  {
  }

  lemma TickKeeps(s: World, w: nat, waited: nat, fails: bool, alertTimeoutCount: nat)
    requires Inv(s, alertTimeoutCount) && Enabled(s, Tick(w, waited, fails))
    ensures Inv(Perform(s, alertTimeoutCount, Tick(w, waited, fails)), alertTimeoutCount)
  {
    var r := RepingOf(s, w, fails);
    var sub := SubWaiter(s.waiters[w].family, r);
    var sent := SendPing(s, sub, fails);
    var phase := AfterTick(s.waiters[w].phase, s.now, waited);
    TickedRepingOk(s, w, waited, fails, alertTimeoutCount);
    SendPingKeeps(s, sub, fails, alertTimeoutCount);
    assert sent.loop == s.loop && sent.repings == s.repings && sent.now == s.now;
    assert OneRoot(sent);
    RecordKeeps(sent, r, alertTimeoutCount);
    AfterTickRootOk(s, w, waited, alertTimeoutCount);
    RootGoesOn(sent.(repings := s.repings + [r]), w, phase, alertTimeoutCount);
  }

  lemma AfterTickRootOk(s: World, w: nat, waited: nat, alertTimeoutCount: nat)
    requires Inv(s, alertTimeoutCount) && Enabled(s, Tick(w, waited, false)) && s.loop == Some(w)
    ensures var after := s.waiters[w].(phase := AfterTick(s.waiters[w].phase, s.now, waited));
      && BackoffOk(after, s.now) && RootOk(after, Some(s.now)) && RootOk(after, s.pinger.lastPing)
  {
    assert RootOk(s.waiters[w], s.pinger.lastPing) && LastSend(s);
    assert WaiterOk(s.waiters[w], s.now);
    AfterTickOk(s.waiters[w], s.now, waited);
  }

  lemma ShortCutOk(waiter: Waiter, now: int, lastPing: Option<int>)
    requires waiter.phase.Backoff? && BackoffOk(waiter, now)
    ensures var after := waiter.(phase := ShortCut(waiter.phase));
      BackoffOk(after, now) && (RootOk(waiter, lastPing) ==> RootOk(after, lastPing))
  {
  }

  lemma ShortCircuitedKeeps(s: World, w: nat, alertTimeoutCount: nat)
    requires Inv(s, alertTimeoutCount) && Waiting(s, w) && s.waiters[w].phase.Backoff?
    ensures Inv(SetPhase(Locked(s, Section.ShortCircuit, s.waiters[w]), w, ShortCut(s.waiters[w].phase)), alertTimeoutCount)
  {
    var waiter := s.waiters[w];
    assert WaiterOk(waiter, s.now);
    ShortCutOk(waiter, s.now, s.pinger.lastPing);
    LockedKeeps(s, Section.ShortCircuit, waiter, alertTimeoutCount);
    SetPhaseKeeps(Locked(s, Section.ShortCircuit, waiter), w, ShortCut(waiter.phase), alertTimeoutCount);
  }

  lemma StepKeeps(s: World, step: Step, alertTimeoutCount: nat)
    requires Inv(s, alertTimeoutCount) && Enabled(s, step)
    ensures Inv(Perform(s, alertTimeoutCount, step), alertTimeoutCount)
  {
    match step
    case Advance(d) => AdvanceKeeps(s, d, alertTimeoutCount);
    case LoopPing(short, fails) => LoopPingKeeps(s, short, fails, alertTimeoutCount);
    case Answer(w) => AnswerKeeps(s, w, alertTimeoutCount);
    case Expire(w) => ExpireKeeps(s, w, alertTimeoutCount);
    case Tick(w, waited, fails) => TickKeeps(s, w, waited, fails, alertTimeoutCount);
    case ShortCircuited(w) => ShortCircuitedKeeps(s, w, alertTimeoutCount);
    case CloseReset(f) =>
      assert ResetOk(s.resets[f]);
    case SeeReset(w) => SetPhaseKeeps(s, w, Gone, alertTimeoutCount);
    case Stop =>
    case SeeStop(w) => SetPhaseKeeps(s, w, Gone, alertTimeoutCount);
  }

  lemma {:induction false} RunKeeps(alertTimeoutCount: nat, steps: seq<Step>)
    ensures Inv(After(alertTimeoutCount, steps), alertTimeoutCount)
  {
    if steps != [] {
      var before, step := steps[..|steps| - 1], steps[|steps| - 1];
      RunKeeps(alertTimeoutCount, before);
      if Enabled(After(alertTimeoutCount, before), step) {
        StepKeeps(After(alertTimeoutCount, before), step, alertTimeoutCount);
      }
    }
  }

  // ----- The promises, for every run -----

  /** Only the waiter of a root ping, on which the loop is blocked, ever pings again. */
  lemma OnlyTheRootRepings(alertTimeoutCount: nat, steps: seq<Step>, w: nat, waited: nat, fails: bool)
    requires Enabled(After(alertTimeoutCount, steps), Tick(w, waited, fails))
    ensures var s := After(alertTimeoutCount, steps); s.loop == Some(w) && s.waiters[w].origin == None
  {
    RunKeeps(alertTimeoutCount, steps);
    CountlessIsRoot(After(alertTimeoutCount, steps), w, alertTimeoutCount);
  }

  /**
   * Re-ping n carries the count n plus the number of short circuits its root waiter has taken. It
   * goes out no earlier than 2^n - 1 minutes after the root ping timed out for n up to 7, and 64
   * minutes after the one before from then on; exactly then, and never suppressed, while ticks are
   * handled on time.
   */
  lemma RepingSchedule(alertTimeoutCount: nat, steps: seq<Step>, i: nat)
    requires i < |After(alertTimeoutCount, steps).repings|
    ensures var r := After(alertTimeoutCount, steps).repings[i];
      var due := 60 * MinutesUntil(r.n);
      && r.n >= 1 && r.count == r.n + r.shorts
      && r.at - r.rootTimedOutAt >= due
      && (!r.late ==> r.at - r.rootTimedOutAt == due && r.result != Skipped)
  {
    RunKeeps(alertTimeoutCount, steps);
    var r := After(alertTimeoutCount, steps).repings[i];
    assert RepingOk(r);
    ScheduleIs(r.n);
  }

  /**
   * Once a first ping has succeeded, a normal timeout reports the silent phone only when a re-ping
   * with count alertTimeoutCount or more has timed out: without short circuits no earlier than a
   * minute after re-ping alertTimeoutCount is due. With the default of 4 that is 16 minutes after
   * the root ping timed out.
   */
  lemma SilenceTakesTime(alertTimeoutCount: nat, steps: seq<Step>, i: nat)
    requires alertTimeoutCount > 0
    requires i < |After(alertTimeoutCount, steps).silences|
    ensures var silence := After(alertTimeoutCount, steps).silences[i];
      !silence.shortCircuit && silence.afterFirstPing && silence.from.timeout == DEFAULT_PING_TIMEOUT ==>
        && silence.from.origin.Some?
        && var r := silence.from.origin.value;
          && r.n + r.shorts >= alertTimeoutCount
          && silence.at >= r.at + 60
          && (r.shorts == 0 ==> silence.at >= r.rootSentAt + r.rootTimeout + 60 * (MinutesUntil(alertTimeoutCount) + 1))
  {
    RunKeeps(alertTimeoutCount, steps);
    var silence := After(alertTimeoutCount, steps).silences[i];
    assert SilenceOk(silence, alertTimeoutCount);
    if !silence.shortCircuit && silence.afterFirstPing && silence.from.timeout == DEFAULT_PING_TIMEOUT {
      var r := silence.from.origin.value;
      if r.shorts == 0 {
        DueGrows(alertTimeoutCount, r.n);
        ScheduleIs(alertTimeoutCount);
      }
    }
  }

  /** Two attempts to send a ping are at least 30 seconds apart. */
  lemma {:induction false} SendsAreSpaced(alertTimeoutCount: nat, steps: seq<Step>, i: nat, j: nat)
    requires i < j < |After(alertTimeoutCount, steps).sends|
    ensures var sends := After(alertTimeoutCount, steps).sends;
      sends[j] - sends[i] >= (j - i) * MIN_PING_INTERVAL
    decreases j
  {
    RunKeeps(alertTimeoutCount, steps);
    var sends := After(alertTimeoutCount, steps).sends;
    assert sends[j] - sends[j - 1] >= MIN_PING_INTERVAL;
    if i < j - 1 {
      SendsAreSpaced(alertTimeoutCount, steps, i, j - 1);
    }
  }

  /** The channel of a family is closed at most once, and nothing is left that would close it again. */
  lemma ResetClosedOnce(alertTimeoutCount: nat, steps: seq<Step>, f: nat)
    requires f < |After(alertTimeoutCount, steps).resets|
    ensures var r := After(alertTimeoutCount, steps).resets[f];
      r.closed <= 1 && (r.closed == 1 ==> r.closers == 0)
  {
    RunKeeps(alertTimeoutCount, steps);
    assert ResetOk(After(alertTimeoutCount, steps).resets[f]);
  }

  /** The timed machine makes the reports that its locked sections make, so they obey the rules for all interleavings. */
  lemma ReportsOfRuns(alertTimeoutCount: nat, steps: seq<Step>)
    ensures var s := After(alertTimeoutCount, steps);
      Agrees(Trace(s.sections), s.pinger.notRespondingSent, s.pinger.notRespondingSent || s.pinger.pingFails > 0)
  {
    RunKeeps(alertTimeoutCount, steps);
    ReportsAreSound(After(alertTimeoutCount, steps).sections);
  }

  // ----- What a step does, told from outside -----

  lemma StepAfter(alertTimeoutCount: nat, steps: seq<Step>, step: Step)
    ensures After(alertTimeoutCount, steps + [step]) == Do(After(alertTimeoutCount, steps), alertTimeoutCount, step)
  {
    assert (steps + [step])[..|steps|] == steps;
  }

  lemma StepsAfter(alertTimeoutCount: nat, steps: seq<Step>, first: Step, second: Step)
    ensures After(alertTimeoutCount, steps + [first] + [second])
      == Do(Do(After(alertTimeoutCount, steps), alertTimeoutCount, first), alertTimeoutCount, second)
  {
    StepAfter(alertTimeoutCount, steps, first);
    StepAfter(alertTimeoutCount, steps + [first], second);
  }

  /** The timeout is reported whatever came before: it was the short one, or enough have passed in a row. */
  predicate MustTell(w: Waiter, alertTimeoutCount: nat) {
    w.timeout == 10 || alertTimeoutCount <= match w.origin case None => 0 case Some(r) => r.n + r.shorts
  }

  /**
   * When a ping's timeout has passed, and no sooner, the user is told of the silent phone unless he
   * knows, if no response has ever come, or the timeout was the short one, or as many as
   * alertTimeoutCount have passed in a row, counting short circuits. The waiter backs off.
   */
  lemma ExpireTells(alertTimeoutCount: nat, steps: seq<Step>, w: nat)
    requires var s := After(alertTimeoutCount, steps); w < |s.waiters| && s.waiters[w].phase == First
    ensures var s, s' := After(alertTimeoutCount, steps), After(alertTimeoutCount, steps + [Expire(w)]);
      var before, after := Trace(s.sections), Trace(s'.sections);
      if s.now < s.waiters[w].sentAt + s.waiters[w].timeout then s' == s
      else
        && (PhoneResponding(after) <==>
            PhoneResponding(before) && Response in before && !MustTell(s.waiters[w], alertTimeoutCount))
        && w < |s'.waiters| && s'.waiters[w].phase.Backoff? && s'.waiters[w].phase.since == s.now
  {
    var s := After(alertTimeoutCount, steps);
    RunKeeps(alertTimeoutCount, steps);
    StepAfter(alertTimeoutCount, steps, Expire(w));
    assert WaiterOk(s.waiters[w], s.now);
    FlagBehindSection(s.sections, Section.OnTimeout(MustTell(s.waiters[w], alertTimeoutCount)));
  }

  function SilencesTold(trace: seq<Mark>): nat {
    if trace == [] then 0
    else SilencesTold(trace[..|trace| - 1]) + if trace[|trace| - 1] == Event(PhoneNotResponding) then 1 else 0
  }

  lemma OneMoreTold(trace: seq<Mark>, m: Mark)
    ensures SilencesTold(trace + [m]) == SilencesTold(trace) + if m == Event(PhoneNotResponding) then 1 else 0
  {
    assert (trace + [m])[..|trace|] == trace;
  }

  lemma SectionIsRecorded(s: World, section: Section, from: Waiter)
    requires s.pinger == StateAfter(s.sections) && |s.silences| == SilencesTold(Trace(s.sections))
    ensures var s' := Locked(s, section, from); |s'.silences| == SilencesTold(Trace(s'.sections))
  {
    var trace, longer := Trace(s.sections), s.sections + [section];
    assert longer[..|longer| - 1] == s.sections;
    match Report(s.pinger, section)
    case None =>
      assert trace + ([] + []) == trace && trace + ([] + [Response]) == trace + [Response];
      OneMoreTold(trace, Response);
    case Some(e) =>
      assert trace + ([Event(e)] + []) == trace + [Event(e)];
      assert trace + ([Event(e)] + [Response]) == trace + [Event(e)] + [Response];
      OneMoreTold(trace, Event(e));
      OneMoreTold(trace + [Event(e)], Response);
  }

  /** There is a record for every report of the silent phone, and no other. */
  lemma {:induction false} SilencesAreRecorded(alertTimeoutCount: nat, steps: seq<Step>)
    ensures var s := After(alertTimeoutCount, steps); |s.silences| == SilencesTold(Trace(s.sections))
  {
    if steps != [] {
      var s, step := After(alertTimeoutCount, steps[..|steps| - 1]), steps[|steps| - 1];
      SilencesAreRecorded(alertTimeoutCount, steps[..|steps| - 1]);
      RunKeepsWorld(alertTimeoutCount, steps[..|steps| - 1], s);
      if Enabled(s, step) {
        StepRecords(s, alertTimeoutCount, step);
      }
    }
  }

  lemma StepRecords(s: World, alertTimeoutCount: nat, step: Step)
    requires s.pinger == StateAfter(s.sections) && |s.silences| == SilencesTold(Trace(s.sections)) && Enabled(s, step)
    ensures var s' := Perform(s, alertTimeoutCount, step); |s'.silences| == SilencesTold(Trace(s'.sections))
  {
    match step
    case LoopPing(short, fails) =>
      SectionIsRecorded(s, Section.Send(s.now, fails),
        Waiter(|s.resets|, None, if short then SHORT_PING_TIMEOUT else DEFAULT_PING_TIMEOUT, s.now, First));
    case Answer(w) => SectionIsRecorded(s, Section.OnRespond, s.waiters[w]);
    case Expire(w) =>
      var waiter := s.waiters[w];
      var alert := waiter.timeout == SHORT_PING_TIMEOUT || InitialCount(waiter) >= alertTimeoutCount;
      SectionIsRecorded(s, Section.OnTimeout(alert), waiter);
    case Tick(w, _, fails) =>
      SectionIsRecorded(s, Section.Send(s.now, fails), SubWaiter(s.waiters[w].family, RepingOf(s, w, fails)));
    case ShortCircuited(w) => SectionIsRecorded(s, Section.ShortCircuit, s.waiters[w]);
    case _ =>
  }

  /** A short circuit during the backoff tells of the silent phone at once, and counts as a timeout. */
  lemma ShortCircuitTells(alertTimeoutCount: nat, steps: seq<Step>, w: nat)
    requires var s := After(alertTimeoutCount, steps); w < |s.waiters| && s.waiters[w].phase.Backoff?
    ensures var s, s' := After(alertTimeoutCount, steps), After(alertTimeoutCount, steps + [ShortCircuited(w)]);
      && !PhoneResponding(Trace(s'.sections))
      && w < |s'.waiters| && s'.waiters[w].phase.Backoff?
      && s'.waiters[w].phase.shorts == s.waiters[w].phase.shorts + 1
      && s'.waiters[w].phase.count == s.waiters[w].phase.count + 1
  {
    RunKeeps(alertTimeoutCount, steps);
    StepAfter(alertTimeoutCount, steps, ShortCircuited(w));
    FlagBehindSection(After(alertTimeoutCount, steps).sections, Section.ShortCircuit);
  }

  /** The last attempt is thirty seconds ago. */
  predicate Heeds(s: World) {
    s.sends == [] || s.now - s.sends[|s.sends| - 1] >= 30
  }

  /**
   * When it waits for nobody, the loop attempts a ping unless one was attempted in the last thirty
   * seconds; it then waits for a new root waiter of a new family, unless the ping could not be sent.
   */
  lemma LoopPings(alertTimeoutCount: nat, steps: seq<Step>, short: bool, fails: bool)
    ensures var s, s' := After(alertTimeoutCount, steps), After(alertTimeoutCount, steps + [LoopPing(short, fails)]);
      if s.loop.Some? then s' == s
      else
        && s'.sends == s.sends + (if Heeds(s) then [s.now] else [])
        && s'.loop == (if Heeds(s) && !fails then Some(|s.waiters|) else None)
        && s'.waiters == s.waiters +
          (if Heeds(s) && !fails then [Waiter(|s.resets|, None, if short then 10 else 60, s.now, First)] else [])
        && |s'.resets| == |s.resets| + 1 && s'.resets[|s.resets|].closed == 0
  {
    var s := After(alertTimeoutCount, steps);
    RunKeeps(alertTimeoutCount, steps);
    StepAfter(alertTimeoutCount, steps, LoopPing(short, fails));
    assert LastSend(s) && (Skips(s.pinger, s.now) <==> !Heeds(s));
  }

  /** A waiter to which re-ping r of the given family was handed. */
  predicate IsSubWaiter(w: Waiter, family: nat, n: nat, count: nat, at: int) {
    && w.family == family && w.timeout == 60 && w.sentAt == at && w.phase == First
    && w.origin.Some? && w.origin.value.n == n && w.origin.value.count == count
  }

  /** The root waiter's ticks have been handled on time so far, and the next is due then. */
  predicate IsDue(s: World, w: nat, due: int) {
    && s.loop == Some(w) && w < |s.waiters| && s.waiters[w].phase.Backoff? && !s.waiters[w].phase.late
    && due == s.waiters[w].phase.since + 60 * MinutesUntil(s.waiters[w].phase.ticks + 1)
  }

  /** The ping attempted at the given time, and the waiter for it unless it could not be sent. */
  predicate RepingWent(s: World, s': World, w: nat, fails: bool, at: int)
    requires w < |s.waiters| && s.waiters[w].phase.Backoff?
  {
    var b := s.waiters[w].phase;
    && s'.sends == s.sends + [at]
    && |s'.repings| == |s.repings| + 1 && s'.repings[|s.repings|].n == b.ticks + 1 && s'.repings[|s.repings|].at == at
    && |s'.waiters| == |s.waiters| + (if fails then 0 else 1)
    && s'.waiters[w].phase.Backoff? && s'.waiters[w].phase.ticks == b.ticks + 1 && !s'.waiters[w].phase.late
    && (!fails ==> IsSubWaiter(s'.waiters[|s.waiters|], s.waiters[w].family, b.ticks + 1, b.count, at))
  }

  /**
   * As long as the root waiter's ticks are handled on time, its next re-ping does go out, on the
   * minute of the schedule, and is waited for unless it could not be sent.
   */
  lemma RepingGoesOut(alertTimeoutCount: nat, steps: seq<Step>, s: World, w: nat, fails: bool, due: int)
    requires s == After(alertTimeoutCount, steps) && IsDue(s, w, due) && s.now <= due
    ensures RepingWent(
      s, After(alertTimeoutCount, steps + [Advance(due - s.now)] + [Tick(w, 0, fails)]), w, fails, due)
  {
    StepsAfter(alertTimeoutCount, steps, Advance(due - s.now), Tick(w, 0, fails));
    GoesOutFrom(alertTimeoutCount, steps, s, w, fails, due);
  }

  lemma RunKeepsWorld(alertTimeoutCount: nat, steps: seq<Step>, s: World)
    requires s == After(alertTimeoutCount, steps)
    ensures Inv(s, alertTimeoutCount)
  {
    RunKeeps(alertTimeoutCount, steps);
  }

  lemma GoesOutFrom(alertTimeoutCount: nat, steps: seq<Step>, s: World, w: nat, fails: bool, due: int)
    requires s == After(alertTimeoutCount, steps) && IsDue(s, w, due) && s.now <= due
    ensures var later := Do(s, alertTimeoutCount, Advance(due - s.now));
      RepingWent(s, Do(later, alertTimeoutCount, Tick(w, 0, fails)), w, fails, due)
  {
    var later := Do(s, alertTimeoutCount, Advance(due - s.now));
    RunKeepsWorld(alertTimeoutCount, steps, s);
    AdvanceKeeps(s, due - s.now, alertTimeoutCount);
    DueIsTickAt(s, alertTimeoutCount, w, due);
    assert later.waiters == s.waiters && later.sends == s.sends && later.repings == s.repings;
    assert later.loop == s.loop && later.now == due;
    TickOnTime(later, alertTimeoutCount, w, fails);
  }

  lemma DueIsTickAt(s: World, alertTimeoutCount: nat, w: nat, due: int)
    requires Inv(s, alertTimeoutCount) && IsDue(s, w, due)
    ensures s.waiters[w].phase.tickAt == due
  {
    assert WaiterOk(s.waiters[w], s.now);
    ScheduleIs(s.waiters[w].phase.ticks + 1);
  }

  lemma TickOnTime(s: World, alertTimeoutCount: nat, w: nat, fails: bool)
    requires Inv(s, alertTimeoutCount) && s.loop == Some(w)
    requires s.waiters[w].phase.Backoff? && !s.waiters[w].phase.late && s.now == s.waiters[w].phase.tickAt
    ensures RepingWent(s, Do(s, alertTimeoutCount, Tick(w, 0, fails)), w, fails, s.now)
  {
    assert RootOk(s.waiters[w], s.pinger.lastPing);
    assert Enabled(s, Tick(w, 0, fails)) && ResultOf(s, fails) == if fails then Failed else Sent;
    var sent := SendPing(s, SubWaiter(s.waiters[w].family, RepingOf(s, w, fails)), fails);
    assert forall i :: 0 <= i < |s.waiters| ==> sent.waiters[i] == s.waiters[i];
  }

  /** Each waiter's family has its switch, no switch was thrown in the future, and channels close five seconds behind it. */
  predicate FamiliesOk(s: World) {
    && (forall i :: 0 <= i < |s.waiters| ==> s.waiters[i].family < |s.resets|)
    && (forall f :: 0 <= f < |s.resets| ==> ThrownInThePast(s.resets[f], s.now))
  }

  predicate ThrownInThePast(r: Reset, now: int) {
    && (r.doneAt.Some? ==> r.doneAt.value <= now)
    && (r.closed > 0 ==> r.doneAt.Some? && now >= r.doneAt.value + 5)
  }

  lemma FamiliesKept(s: World, alertTimeoutCount: nat, step: Step)
    requires FamiliesOk(s) && Enabled(s, step)
    ensures FamiliesOk(Perform(s, alertTimeoutCount, step))
  {
    var s' := Perform(s, alertTimeoutCount, step);
    assert forall f :: 0 <= f < |s.resets| ==> ThrownInThePast(s.resets[f], s'.now);
  }

  lemma {:induction false} FamiliesAreOk(alertTimeoutCount: nat, steps: seq<Step>)
    ensures FamiliesOk(After(alertTimeoutCount, steps))
  {
    if steps != [] {
      var before, step := After(alertTimeoutCount, steps[..|steps| - 1]), steps[|steps| - 1];
      FamiliesAreOk(alertTimeoutCount, steps[..|steps| - 1]);
      if Enabled(before, step) {
        FamiliesKept(before, alertTimeoutCount, step);
      }
    }
  }

  /** The waiter is gone, the loop goes on if it waited for it, and the other waiters do not notice. */
  predicate OnlyLeaves(s: World, s': World, w: nat) {
    && !Waiting(s', w) && s'.loop == (if s.loop == Some(w) then None else s.loop)
    && s'.now == s.now && |s'.waiters| == |s.waiters|
    && forall v: nat :: v < |s.waiters| && v != w ==> s'.waiters[v] == s.waiters[v]
  }

  /** An answer to any ping tells of the recovery, and ends its own waiter at once. */
  lemma AnswerTells(alertTimeoutCount: nat, steps: seq<Step>, w: nat)
    requires Waiting(After(alertTimeoutCount, steps), w)
    ensures var s, s' := After(alertTimeoutCount, steps), After(alertTimeoutCount, steps + [Answer(w)]);
      PhoneResponding(Trace(s'.sections)) && !Trouble(Trace(s'.sections)) && OnlyLeaves(s, s', w)
  {
    var s := After(alertTimeoutCount, steps);
    RunKeepsWorld(alertTimeoutCount, steps, s);
    StepAfter(alertTimeoutCount, steps, Answer(w));
    AnswerLeaves(s, alertTimeoutCount, w);
    FlagBehindSection(s.sections, Section.OnRespond);
  }

  lemma AnswerLeaves(s: World, alertTimeoutCount: nat, w: nat)
    requires Waiting(s, w)
    ensures var s' := Do(s, alertTimeoutCount, Answer(w));
      OnlyLeaves(s, s', w) && s'.sections == s.sections + [Section.OnRespond]
  {
  }

  /** An answer to any ping of a family ends all its waiters: five seconds later the channel that they watch can close. */
  lemma AnswerEndsFamily(alertTimeoutCount: nat, steps: seq<Step>, w: nat, v: nat)
    requires var s := After(alertTimeoutCount, steps);
      Waiting(s, w) && Waiting(s, v) && v != w && s.waiters[v].family == s.waiters[w].family
    ensures var f := After(alertTimeoutCount, steps).waiters[w].family;
      var s' := After(alertTimeoutCount, steps + [Answer(w)] + [Advance(5)] + [CloseReset(f)] + [SeeReset(v)]);
      !Waiting(s', v) && s'.loop != Some(v)
  {
    var f := After(alertTimeoutCount, steps).waiters[w].family;
    var answered := steps + [Answer(w)];
    var later := answered + [Advance(5)];
    RunKeeps(alertTimeoutCount, answered);
    FamiliesAreOk(alertTimeoutCount, answered);
    AnswerTells(alertTimeoutCount, steps, w);
    FamilyMarked(alertTimeoutCount, steps, w);
    FamilyEnds(After(alertTimeoutCount, answered), alertTimeoutCount, f, v);
    StepAfter(alertTimeoutCount, answered, Advance(5));
    StepsAfter(alertTimeoutCount, later, CloseReset(f), SeeReset(v));
  }

  lemma FamilyEnds(s: World, alertTimeoutCount: nat, f: nat, v: nat)
    requires f < |s.resets| && ResetOk(s.resets[f]) && ThrownInThePast(s.resets[f], s.now) && s.resets[f].doneAt.Some?
    requires Waiting(s, v) && s.waiters[v].family == f
    ensures var later := Do(s, alertTimeoutCount, Advance(5));
      var s' := Do(Do(later, alertTimeoutCount, CloseReset(f)), alertTimeoutCount, SeeReset(v));
      !Waiting(s', v) && s'.loop != Some(v)
  {
  }

  /** No channel closes sooner than five seconds after the family's first answer. */
  lemma ClosesAfterFive(alertTimeoutCount: nat, steps: seq<Step>, f: nat)
    requires f < |After(alertTimeoutCount, steps).resets| && After(alertTimeoutCount, steps).resets[f].closed > 0
    ensures var s := After(alertTimeoutCount, steps); s.resets[f].doneAt.Some? && s.now - s.resets[f].doneAt.value >= 5
  {
    FamiliesAreOk(alertTimeoutCount, steps);
    assert ThrownInThePast(After(alertTimeoutCount, steps).resets[f], After(alertTimeoutCount, steps).now);
  }

  /** The family's switch has been thrown. */
  lemma FamilyMarked(alertTimeoutCount: nat, steps: seq<Step>, w: nat)
    requires Waiting(After(alertTimeoutCount, steps), w)
    ensures var s, s' := After(alertTimeoutCount, steps), After(alertTimeoutCount, steps + [Answer(w)]);
      s.waiters[w].family < |s'.resets| && s'.resets[s.waiters[w].family].doneAt.Some?
  {
    FamiliesAreOk(alertTimeoutCount, steps);
    StepAfter(alertTimeoutCount, steps, Answer(w));
  }

  /** Stopping ends every waiter too. */
  lemma StopEndsWaiters(alertTimeoutCount: nat, steps: seq<Step>, w: nat)
    ensures !Waiting(After(alertTimeoutCount, steps + [Stop] + [SeeStop(w)]), w)
  {
    StepsAfter(alertTimeoutCount, steps, Stop, SeeStop(w));
  }
}

/**
 * doLongPoll and closeLongPolling (pkg/libgm/longpoll.go): the retry loop that keeps one long-poll
 * connection open, its error counter and its generation id.
 */
module LongPoll {
  import opened Basics

  /** How one iteration goes, as far as the network decides it. */
  datatype Outcome =
    | RefreshNetworkError
    | RefreshError
    | NoResponse
    | Response(status: int, receivedEvents: bool)

  /**
   * What is done to the two fields that all loops of a client share. Another loop opens a connection,
   * or ends its read and clears the field, whosever connection is in it.
   */
  datatype Touch = StartLoop | CloseConnection | SetConnection | ClearConnection

  /** listenID, and whether longPollingConn holds a connection. */
  datatype Fields = Fields(listenID: int, connected: bool)

  /** What others do before the answer, while the connection is read or the loop sleeps, and before the next turn. */
  datatype Attempt = Attempt(outcome: Outcome, before: seq<Touch>, during: seq<Touch>, behind: seq<Touch>)

  datatype Action = Tried | TemporaryError | FatalError | Recovered | Slept(seconds: int) | Connected | FirstConnect

  datatype Kind = Retry | Fatal | Open

  function KindOf(o: Outcome): Kind {
    match o
    case RefreshNetworkError => Retry
    case RefreshError => Fatal
    case NoResponse => Retry
    case Response(status, _) =>
      if status == 401 || status == 403 then Fatal
      else if status >= 400 then Retry
      else Open
  }

  /** Closing bumps the generation only while a connection is in the field. */
  function Touched(f: Fields, touch: Touch): Fields {
    match touch
    case StartLoop => f.(listenID := f.listenID + 1)
    case CloseConnection => if f.connected then Fields(f.listenID + 1, false) else f
    case SetConnection => f.(connected := true)
    case ClearConnection => f.(connected := false)
  }

  function AfterTouches(f: Fields, touches: seq<Touch>): Fields
    decreases |touches|
  {
    if touches == [] then f else AfterTouches(Touched(f, touches[0]), touches[1..])
  }

  /** Another loop starts, or a close finds a connection. */
  predicate Bumps(f: Fields, touches: seq<Touch>)
    decreases |touches|
  {
    touches != [] &&
    (|| touches[0] == StartLoop
     || (touches[0] == CloseConnection && f.connected)
     || Bumps(Touched(f, touches[0]), touches[1..]))
  }

  lemma {:induction false} BumpsIsBumped(f: Fields, touches: seq<Touch>)
    ensures AfterTouches(f, touches).listenID >= f.listenID
    ensures AfterTouches(f, touches).listenID > f.listenID <==> Bumps(f, touches)
    decreases |touches|
  {
    if touches != [] {
      BumpsIsBumped(Touched(f, touches[0]), touches[1..]);
    }
  }

  /** The fields when the answer has come; a connection that opens is put into the field. */
  function Answered(f: Fields, a: Attempt): Fields {
    var g := AfterTouches(f, a.before);
    if KindOf(a.outcome) == Open then Touched(g, SetConnection) else g
  }

  /** The fields when the read has ended, which clears the field whatever is in it by then. */
  function ReadOut(f: Fields, a: Attempt): Fields {
    var g := AfterTouches(Answered(f, a), a.during);
    if KindOf(a.outcome) == Open then Touched(g, ClearConnection) else g
  }

  function FieldsAfter(f: Fields, a: Attempt): Fields {
    AfterTouches(ReadOut(f, a), a.behind)
  }

  /** Something in the course of the attempt bumps the generation. */
  predicate Superseded(f: Fields, a: Attempt) {
    Bumps(f, a.before) || Bumps(Answered(f, a), a.during) || Bumps(ReadOut(f, a), a.behind)
  }

  lemma SupersededIsBumped(f: Fields, a: Attempt)
    ensures FieldsAfter(f, a).listenID >= f.listenID
    ensures FieldsAfter(f, a).listenID > f.listenID <==> Superseded(f, a)
  {
    BumpsIsBumped(f, a.before);
    BumpsIsBumped(Answered(f, a), a.during);
    BumpsIsBumped(ReadOut(f, a), a.behind);
  }

  datatype Mode = Mode(loggedIn: bool, background: bool)

  /** What a run does: its actions, the value it returns if it has returned, and the fields it leaves. */
  datatype Trace = Trace(log: seq<Action>, ended: Option<bool>, fields: Fields)

  function Prefixed(actions: seq<Action>, t: Trace): Trace {
    t.(log := actions + t.log)
  }

  function Emit(mode: Mode, a: Action): seq<Action> {
    if mode.loggedIn then [a] else []
  }

  function SleepSeconds(mode: Mode, errorCount: int): int {
    if mode.background then errorCount * 2 else (errorCount + 1) * 5
  }

  function Failed(mode: Mode): seq<Action> {
    [Tried] + Emit(mode, TemporaryError)
  }

  function Opened(mode: Mode, errorCount: int, callback: bool): seq<Action> {
    [Tried] + (if errorCount > 0 then Emit(mode, Recovered) else [])
    + [Connected] + (if callback then [FirstConnect] else [])
  }

  /** One turn of the loop: what it tells, what it returns if it returns, and what it goes on with. */
  datatype Turn = Turn(actions: seq<Action>, ended: Option<bool>, errorCount: int, callback: bool)

  function TurnOf(mode: Mode, errorCount: int, callback: bool, o: Outcome): Turn {
    match KindOf(o)
    case Fatal => Turn([Tried] + Emit(mode, FatalError), Some(false), errorCount, callback)
    case Retry =>
      if mode.background && errorCount + 1 >= 3 then Turn(Failed(mode), Some(false), errorCount + 1, callback)
      else Turn(Failed(mode) + [Slept(SleepSeconds(mode, errorCount + 1))], None, errorCount + 1, callback)
    case Open =>
      Turn(Opened(mode, errorCount, callback), if mode.background then Some(o.receivedEvents) else None, 0, false)
  }

  /** The loop of generation mine, with errorCount failures since it was last connected. */
  function Poll(mode: Mode, mine: int, f: Fields, errorCount: int, callback: bool, attempts: seq<Attempt>): Trace
    decreases |attempts|
  {
    if f.listenID != mine then Trace([], Some(true), f)
    else if attempts == [] then Trace([], None, f)
    else
      var turn, next := TurnOf(mode, errorCount, callback, attempts[0].outcome), FieldsAfter(f, attempts[0]);
      if turn.ended.Some? then Trace(turn.actions, turn.ended, next)
      else Prefixed(turn.actions, Poll(mode, mine, next, turn.errorCount, turn.callback, attempts[1..]))
  }

  lemma PollTurn(mode: Mode, f: Fields, errorCount: int, callback: bool, attempts: seq<Attempt>, i: nat, log: seq<Action>,
                 turn: Turn, next: Fields)
    requires i < |attempts| && turn == TurnOf(mode, errorCount, callback, attempts[i].outcome)
    requires next == FieldsAfter(f, attempts[i])
    ensures Prefixed(log, Poll(mode, f.listenID, f, errorCount, callback, attempts[i..])) ==
      if turn.ended.Some? then Trace(log + turn.actions, turn.ended, next)
      else Prefixed(log + turn.actions, Poll(mode, f.listenID, next, turn.errorCount, turn.callback, attempts[i + 1..]))
  {
    assert attempts[i..][0] == attempts[i] && attempts[i..][1..] == attempts[i + 1..];
    if turn.ended.None? {
      PrefixedTwice(log, turn.actions, log + turn.actions,
                    Poll(mode, f.listenID, next, turn.errorCount, turn.callback, attempts[i + 1..]));
    }
  }

  lemma PrefixedTwice(a: seq<Action>, b: seq<Action>, ab: seq<Action>, t: Trace)
    requires ab == a + b
    ensures Prefixed(a, Prefixed(b, t)) == Prefixed(ab, t)
  {
    assert a + (b + t.log) == a + b + t.log;
  }

  class Client {
    var listenID: int
    var connected: bool

    function View(): Fields
      reads this
    {
      Fields(listenID, connected)
    }

    /** What other goroutines do to the fields, in the order in which it takes effect. */
    method Interfere(touches: seq<Touch>)
      modifies this
      ensures View() == AfterTouches(old(View()), touches)
    {
      for i := 0 to |touches|
        invariant AfterTouches(old(View()), touches) == AfterTouches(View(), touches[i..])
      {
        assert touches[i..][0] == touches[i] && touches[i..][1..] == touches[i + 1..];
        match touches[i]
        case StartLoop => listenID := listenID + 1;
        case CloseConnection => CloseLongPolling();
        case SetConnection => connected := true;
        case ClearConnection => connected := false;
      }
    }

    method CloseLongPolling()
      modifies this
      ensures View() == Touched(old(View()), CloseConnection)
    {
      if connected {
        listenID := listenID + 1;
        connected := false;
      }
    }

    static method Tell(log: seq<Action>, loggedIn: bool, event: Action, ghost background: bool) returns (longer: seq<Action>)
      ensures longer == log + Emit(Mode(loggedIn, background), event)
    {
      longer := log;
      if loggedIn {
        longer := longer + [event];
      }
    }

    /** What a connection that has opened tells before it is read. */
    static method TellOpen(loggedIn: bool, errorCount: int, callback: bool, ghost background: bool)
        returns (actions: seq<Action>)
      ensures actions == Opened(Mode(loggedIn, background), errorCount, callback)
    {
      actions := [Tried];
      if errorCount > 0 {
        actions := Tell(actions, loggedIn, Recovered, background);
      }
      actions := actions + [Connected];
      if callback {
        actions := actions + [FirstConnect];
      }
    }

    /** The fields in the course of an attempt that gets no connection. */
    method PassAttempt(a: Attempt)
      requires KindOf(a.outcome) != Open
      modifies this
      ensures View() == FieldsAfter(old(View()), a)
    {
      Interfere(a.before);
      Interfere(a.during);
      Interfere(a.behind);
    }

    method FailAttempt(loggedIn: bool, background: bool, errorCount: int, callback: bool, a: Attempt) returns (turn: Turn)
      requires KindOf(a.outcome) == Retry
      modifies this
      ensures View() == FieldsAfter(old(View()), a)
      ensures turn == TurnOf(Mode(loggedIn, background), errorCount, callback, a.outcome)
    {
      PassAttempt(a);
      var actions := Tell([Tried], loggedIn, TemporaryError, background);
      var count := errorCount + 1;
      var sleepSeconds := (count + 1) * 5;
      if background {
        if count >= 3 {
          return Turn(actions, Some(false), count, callback);
        }
        sleepSeconds := count * 2;
      }
      return Turn(actions + [Slept(sleepSeconds)], None, count, callback);
    }

    /** The field is set when the answer comes, and cleared when its read ends, whatever is in it by then. */
    method OpenAttempt(loggedIn: bool, background: bool, errorCount: int, callback: bool, a: Attempt) returns (turn: Turn)
      requires KindOf(a.outcome) == Open
      modifies this
      ensures View() == FieldsAfter(old(View()), a)
      ensures turn == TurnOf(Mode(loggedIn, background), errorCount, callback, a.outcome)
    {
      Interfere(a.before);
      var actions := TellOpen(loggedIn, errorCount, callback, background);
      connected := true;
      Interfere(a.during);
      connected := false;
      Interfere(a.behind);
      turn := Turn(actions, if background then Some(a.outcome.receivedEvents) else None, 0, false);
    }

    /** The body of the loop. */
    method TakeTurn(loggedIn: bool, background: bool, errorCount: int, callback: bool, a: Attempt) returns (turn: Turn)
      modifies this
      ensures View() == FieldsAfter(old(View()), a)
      ensures turn == TurnOf(Mode(loggedIn, background), errorCount, callback, a.outcome)
    {
      match KindOf(a.outcome)
      case Fatal =>
        PassAttempt(a);
        var actions := Tell([Tried], loggedIn, FatalError, background);
        turn := Turn(actions, Some(false), errorCount, callback);
      case Retry =>
        turn := FailAttempt(loggedIn, background, errorCount, callback, a);
      case Open =>
        turn := OpenAttempt(loggedIn, background, errorCount, callback, a);
    }

    method DoLongPoll(loggedIn: bool, background: bool, onFirstConnect: bool, attempts: seq<Attempt>)
        returns (log: seq<Action>, ended: Option<bool>)
      modifies this
      ensures var f := Touched(old(View()), StartLoop);
        Trace(log, ended, View()) == Poll(Mode(loggedIn, background), f.listenID, f, 1, onFirstConnect, attempts)
    {
      listenID := listenID + 1;
      var mine := listenID;
      ghost var mode, f := Mode(loggedIn, background), View();
      log := [];
      var errorCount := 1;
      var callback := onFirstConnect;
      var i := 0;
      ghost var whole := Poll(mode, mine, f, 1, onFirstConnect, attempts);
      assert attempts[0..] == attempts;
      PrefixedByNothing(whole);
      while listenID == mine && i < |attempts|
        invariant 0 <= i <= |attempts| && f == View()
        invariant whole == Prefixed(log, Poll(mode, mine, f, errorCount, callback, attempts[i..]))
        decreases |attempts| - i
      {
        var turn := TakeTurn(loggedIn, background, errorCount, callback, attempts[i]);
        PollTurn(mode, f, errorCount, callback, attempts, i, log, turn, View());
        f := View();
        log := log + turn.actions;
        errorCount, callback := turn.errorCount, turn.callback;
        i := i + 1;
        if turn.ended.Some? {
          return log, turn.ended;
        }
      }
      PollEnds(mode, mine, f, errorCount, callback, attempts[i..], log);
      ended := if listenID == mine then None else Some(true);
    }
  }

  lemma PrefixedByNothing(t: Trace)
    ensures Prefixed([], t) == t
  {
    assert [] + t.log == t.log;
  }

  lemma PollEnds(mode: Mode, mine: int, f: Fields, errorCount: int, callback: bool, attempts: seq<Attempt>, log: seq<Action>)
    requires f.listenID != mine || attempts == []
    ensures Prefixed(log, Poll(mode, mine, f, errorCount, callback, attempts))
      == Trace(log, if f.listenID == mine then None else Some(true), f)
  {
    assert log + [] == log;
  }

  // ----- What every run obeys -----

  /** What an observer of a logged-in run keeps track of. */
  datatype Watch = Watch(armed: bool, slept: int, callbackLeft: bool, dead: bool)

  /** armed: a recovery may be reported; slept: the last sleep since the connection was open. */
  predicate Allowed(w: Watch, a: Action) {
    && !w.dead
    && (a == Recovered ==> w.armed)
    && (a.Slept? ==> a.seconds > w.slept)
    && (a == FirstConnect ==> w.callbackLeft)
  }

  function Seen(w: Watch, a: Action): Watch {
    match a
    case TemporaryError => w.(armed := true)
    case Recovered => w.(armed := false)
    case Slept(s) => w.(slept := s)
    case Connected => w.(slept := 0)
    case FirstConnect => w.(callbackLeft := false)
    case FatalError => w.(dead := true)
    case Tried => w
  }

  predicate Follows(log: seq<Action>, w: Watch) {
    log == [] || (Allowed(w, log[0]) && Follows(log[1..], Seen(w, log[0])))
  }

  function SeenAll(w: Watch, log: seq<Action>): Watch
    decreases |log|
  {
    if log == [] then w else SeenAll(Seen(w, log[0]), log[1..])
  }

  lemma {:induction false} FollowsPrefixed(a: seq<Action>, b: seq<Action>, w: Watch)
    requires Follows(a, w) && Follows(b, SeenAll(w, a))
    ensures Follows(a + b, w)
  {
    if a == [] {
      assert a + b == b;
    } else {
      assert (a + b)[0] == a[0] && (a + b)[1..] == a[1..] + b;
      FollowsPrefixed(a[1..], b, Seen(w, a[0]));
    }
  }

  lemma {:induction false} SeenAllPrefixed(a: seq<Action>, b: seq<Action>, w: Watch)
    ensures SeenAll(w, a + b) == SeenAll(SeenAll(w, a), b)
  {
    if a == [] {
      assert a + b == b;
    } else {
      assert (a + b)[0] == a[0] && (a + b)[1..] == a[1..] + b;
      SeenAllPrefixed(a[1..], b, Seen(w, a[0]));
    }
  }

  lemma Extend(log: seq<Action>, a: Action, w: Watch)
    requires Follows(log, w) && Allowed(SeenAll(w, log), a)
    ensures Follows(log + [a], w) && SeenAll(w, log + [a]) == Seen(SeenAll(w, log), a)
  {
    var w' := SeenAll(w, log);
    assert [a][1..] == [];
    assert Follows([a], w') && SeenAll(w', [a]) == SeenAll(Seen(w', a), []);
    FollowsPrefixed(log, [a], w);
    SeenAllPrefixed(log, [a], w);
  }

  lemma FailedActions(w: Watch, seconds: int)
    requires !w.dead && seconds > w.slept
    ensures var actions := [Tried] + [TemporaryError];
      && Follows(actions, w) && Follows(actions + [Slept(seconds)], w)
      && SeenAll(w, actions + [Slept(seconds)]) == w.(armed := true, slept := seconds)
  {
    assert [] + [Tried] == [Tried];
    Extend([], Tried, w);
    Extend([Tried], TemporaryError, w);
    Extend([Tried] + [TemporaryError], Slept(seconds), w);
  }

  lemma OpenedActions(w: Watch, recover: bool, callback: bool)
    requires !w.dead && (recover ==> w.armed) && (callback ==> w.callbackLeft)
    ensures var actions :=
        [Tried] + (if recover then [Recovered] else []) + [Connected] + (if callback then [FirstConnect] else []);
      && Follows(actions, w)
      && SeenAll(w, actions)
        == w.(armed := w.armed && !recover, slept := 0, callbackLeft := w.callbackLeft && !callback)
  {
    assert [] + [Tried] == [Tried];
    Extend([], Tried, w);
    var head := [Tried] + if recover then [Recovered] else [];
    if recover {
      Extend([Tried], Recovered, w);
    } else {
      assert head == [Tried];
    }
    Extend(head, Connected, w);
    if callback {
      Extend(head + [Connected], FirstConnect, w);
    } else {
      assert head + [Connected] + [] == head + [Connected];
    }
  }

  lemma {:induction false} PollFollows(
    mode: Mode, mine: int, f: Fields, errorCount: nat, callback: bool, attempts: seq<Attempt>, w: Watch)
    requires mode.loggedIn && !w.dead && (callback ==> w.callbackLeft)
    requires w.armed <==> errorCount > 0
    requires w.slept <= SleepSeconds(mode, errorCount)
    ensures Follows(Poll(mode, mine, f, errorCount, callback, attempts).log, w)
    decreases |attempts|
  {
    if f.listenID == mine && attempts != [] {
      var a, rest := attempts[0], attempts[1..];
      var next := FieldsAfter(f, a);
      match KindOf(a.outcome)
      case Fatal =>
        assert ([Tried] + [FatalError])[1..] == [FatalError];
      case Retry =>
        var seconds := SleepSeconds(mode, errorCount + 1);
        var actions := Failed(mode) + [Slept(seconds)];
        FailedActions(w, seconds);
        PollFollows(mode, mine, next, errorCount + 1, callback, rest, SeenAll(w, actions));
        FollowsPrefixed(actions, Poll(mode, mine, next, errorCount + 1, callback, rest).log, w);
      case Open =>
        var actions := Opened(mode, errorCount, callback);
        OpenedActions(w, errorCount > 0, callback);
        PollFollows(mode, mine, next, 0, false, rest, SeenAll(w, actions));
        FollowsPrefixed(actions, Poll(mode, mine, next, 0, false, rest).log, w);
    }
  }

  // ----- The same, said of any two moments of a run -----

  function RunLog(background: bool, f: Fields, callback: bool, attempts: seq<Attempt>): seq<Action> {
    Poll(Mode(true, background), f.listenID, f, 1, callback, attempts).log
  }

  lemma {:induction false} ErrorBeforeRecovery(log: seq<Action>, w: Watch, j: nat) returns (k: nat)
    requires Follows(log, w) && !w.armed && j < |log| && log[j] == Recovered
    ensures k < j && log[k] == TemporaryError
  {
    if log[0] == TemporaryError {
      k := 0;
    } else {
      var k' := ErrorBeforeRecovery(log[1..], Seen(w, log[0]), j - 1);
      k := k' + 1;
    }
  }

  lemma {:induction false} RecoveriesInLog(log: seq<Action>, w: Watch, i: nat, j: nat) returns (k: nat)
    requires Follows(log, w) && i < j < |log| && log[i] == Recovered && log[j] == Recovered
    ensures i < k < j && log[k] == TemporaryError
  {
    if i == 0 {
      var k' := ErrorBeforeRecovery(log[1..], Seen(w, log[0]), j - 1);
      k := k' + 1;
    } else {
      var k' := RecoveriesInLog(log[1..], Seen(w, log[0]), i - 1, j - 1);
      k := k' + 1;
    }
  }

  lemma {:induction false} SleepsInLog(log: seq<Action>, w: Watch, j: nat)
    requires Follows(log, w) && j < |log| && log[j].Slept?
    requires forall k :: 0 <= k < j ==> log[k] != Connected
    ensures log[j].seconds > w.slept
  {
    if j > 0 {
      SleepsInLog(log[1..], Seen(w, log[0]), j - 1);
    }
  }

  lemma {:induction false} SleepsGrow(log: seq<Action>, w: Watch, i: nat, j: nat)
    requires Follows(log, w) && i < j < |log| && log[i].Slept? && log[j].Slept?
    requires forall k :: i < k < j ==> log[k] != Connected
    ensures log[i].seconds < log[j].seconds
  {
    if i == 0 {
      SleepsInLog(log[1..], Seen(w, log[0]), j - 1);
    } else {
      SleepsGrow(log[1..], Seen(w, log[0]), i - 1, j - 1);
    }
  }

  lemma {:induction false} DeadIsSilent(log: seq<Action>, w: Watch, i: nat)
    requires Follows(log, w) && i < |log| && log[i] == FatalError
    ensures i == |log| - 1
  {
    if i == 0 {
      assert Seen(w, log[0]).dead;
    } else {
      DeadIsSilent(log[1..], Seen(w, log[0]), i - 1);
    }
  }

  lemma {:induction false} NoCallbackLeft(log: seq<Action>, w: Watch, i: nat)
    requires Follows(log, w) && !w.callbackLeft && i < |log|
    ensures log[i] != FirstConnect
  {
    if i > 0 {
      NoCallbackLeft(log[1..], Seen(w, log[0]), i - 1);
    }
  }

  lemma {:induction false} OneCallback(log: seq<Action>, w: Watch, i: nat, j: nat)
    requires Follows(log, w) && i < j < |log| && log[i] == FirstConnect
    ensures log[j] != FirstConnect
  {
    if i == 0 {
      NoCallbackLeft(log[1..], Seen(w, log[0]), j - 1);
    } else {
      OneCallback(log[1..], Seen(w, log[0]), i - 1, j - 1);
    }
  }

  /**
   * In every logged-in run: between two recoveries there is a temporary error, nothing follows a
   * fatal error, failures without a connection in between sleep strictly longer each time, and the
   * first-connect callback runs at most once.
   */
  lemma EventProtocol(background: bool, f: Fields, callback: bool, attempts: seq<Attempt>, i: nat, j: nat)
    requires i < j < |RunLog(background, f, callback, attempts)|
    ensures var log := RunLog(background, f, callback, attempts);
      && (log[i] == Recovered && log[j] == Recovered ==> exists k :: i < k < j && log[k] == TemporaryError)
      && log[i] != FatalError
      && (log[i].Slept? && log[j].Slept? && Connected !in log[i..j] ==> log[i].seconds < log[j].seconds)
      && !(log[i] == FirstConnect && log[j] == FirstConnect)
  {
    var log := RunLog(background, f, callback, attempts);
    var w := Watch(true, 0, callback, false);
    PollFollows(Mode(true, background), f.listenID, f, 1, callback, attempts, w);
    if log[i] == Recovered && log[j] == Recovered {
      var k := RecoveriesInLog(log, w, i, j);
    }
    if log[i] == FatalError {
      DeadIsSilent(log, w, i);
      assert false;
    }
    if log[i].Slept? && log[j].Slept? && Connected !in log[i..j] {
      forall k | i < k < j
        ensures log[k] != Connected
      {
        assert log[k] == log[i..j][k - i];
      }
      SleepsGrow(log, w, i, j);
    }
    if log[i] == FirstConnect {
      OneCallback(log, w, i, j);
    }
  }

  // ----- How far a run gets -----

  function Count(log: seq<Action>, a: Action): nat {
    if log == [] then 0 else (if log[0] == a then 1 else 0) + Count(log[1..], a)
  }

  lemma {:induction false} CountPrefixed(a: seq<Action>, b: seq<Action>, x: Action)
    ensures Count(a + b, x) == Count(a, x) + Count(b, x)
  {
    if a == [] {
      assert a + b == b;
    } else {
      assert (a + b)[0] == a[0] && (a + b)[1..] == a[1..] + b;
      CountPrefixed(a[1..], b, x);
    }
  }

  lemma IterationTriesOnce(mode: Mode, errorCount: int, callback: bool, seconds: int)
    ensures Count([Tried] + Emit(mode, FatalError), Tried) == 1
    ensures Count(Failed(mode), Tried) == 1
    ensures Count(Failed(mode) + [Slept(seconds)], Tried) == 1
    ensures Count(Opened(mode, errorCount, callback), Tried) == 1
  {
    var recovered := if errorCount > 0 then Emit(mode, Recovered) else [];
    CountPrefixed([Tried], Emit(mode, FatalError), Tried);
    CountPrefixed([Tried], Emit(mode, TemporaryError), Tried);
    CountPrefixed(Failed(mode), [Slept(seconds)], Tried);
    CountPrefixed([Tried], recovered, Tried);
    CountPrefixed([Tried] + recovered, [Connected], Tried);
    CountPrefixed([Tried] + recovered + [Connected], if callback then [FirstConnect] else [], Tried);
  }

  /** The fields as attempt k finds them, if it is started. */
  function FieldsAt(f: Fields, attempts: seq<Attempt>, k: nat): Fields
    requires k <= |attempts|
    decreases k
  {
    if k == 0 then f else FieldsAt(FieldsAfter(f, attempts[0]), attempts[1..], k - 1)
  }

  predicate Passes(f: Fields, attempts: seq<Attempt>, k: nat)
    requires k < |attempts|
  {
    !Superseded(FieldsAt(f, attempts, k), attempts[k]) && KindOf(attempts[k].outcome) != Fatal
  }

  /** A foreground turn tries once, and goes on unless it was fatal. */
  lemma ForegroundTurn(mode: Mode, errorCount: int, callback: bool, o: Outcome, tail: seq<Action>)
    requires !mode.background
    ensures var turn := TurnOf(mode, errorCount, callback, o);
      && Count(turn.actions, Tried) == 1 && Count(turn.actions + tail, Tried) == 1 + Count(tail, Tried)
      && (turn.ended.Some? <==> KindOf(o) == Fatal)
  {
    IterationTriesOnce(mode, errorCount, callback, SleepSeconds(mode, errorCount + 1));
    CountPrefixed(TurnOf(mode, errorCount, callback, o).actions, tail, Tried);
  }

  /**
   * A foreground run starts attempt i exactly when none of the attempts before it was fatal or saw
   * its generation superseded: by another loop, or by a close that found a connection in the field,
   * whosever it was.
   */
  lemma {:induction false} AttemptStarts(
    mode: Mode, f: Fields, errorCount: int, callback: bool, attempts: seq<Attempt>, i: nat)
    requires !mode.background && i < |attempts|
    ensures Count(Poll(mode, f.listenID, f, errorCount, callback, attempts).log, Tried) > i <==>
      forall k :: 0 <= k < i ==> Passes(f, attempts, k)
    decreases |attempts|
  {
    var a, rest := attempts[0], attempts[1..];
    var turn, next := TurnOf(mode, errorCount, callback, a.outcome), FieldsAfter(f, a);
    var tail := Poll(mode, f.listenID, next, turn.errorCount, turn.callback, rest);
    SupersededIsBumped(f, a);
    ForegroundTurn(mode, errorCount, callback, a.outcome, tail.log);
    if i > 0 {
      if Passes(f, attempts, 0) {
        AttemptStarts(mode, next, turn.errorCount, turn.callback, rest, i - 1);
        assert forall k :: 0 <= k < i - 1 ==> Passes(next, rest, k) == Passes(f, attempts, k + 1);
        assert forall k :: 1 <= k < i ==> Passes(f, attempts, k) == Passes(next, rest, k - 1);
      }
    }
  }

  /** What the second attempt of a background run adds. */
  lemma SecondAttempt(mode: Mode, mine: int, f: Fields, callback: bool, attempts: seq<Attempt>)
    requires mode.background
    ensures var run := Poll(mode, mine, f, 2, callback, attempts);
      && Count(run.log, Tried) == (if f.listenID == mine && attempts != [] then 1 else 0)
      && (attempts != [] ==> run.ended.Some?)
  {
    IterationTriesOnce(mode, 2, callback, 0);
  }

  lemma FirstAttempt(mode: Mode, f: Fields, callback: bool, attempts: seq<Attempt>)
    requires mode.background && attempts != []
    ensures var run := Poll(mode, f.listenID, f, 1, callback, attempts);
      if KindOf(attempts[0].outcome) == Retry then
        var tail := Poll(mode, f.listenID, FieldsAfter(f, attempts[0]), 2, callback, attempts[1..]);
        run.ended == tail.ended && Count(run.log, Tried) == 1 + Count(tail.log, Tried)
      else run.ended.Some? && Count(run.log, Tried) == 1
  {
    IterationTriesOnce(mode, 1, callback, SleepSeconds(mode, 2));
    if KindOf(attempts[0].outcome) == Retry {
      var tail := Poll(mode, f.listenID, FieldsAfter(f, attempts[0]), 2, callback, attempts[1..]);
      CountPrefixed(Failed(mode) + [Slept(SleepSeconds(mode, 2))], tail.log, Tried);
    }
  }

  /** In background mode the second attempt is the last, and it is not waited for after a success. */
  lemma BackgroundIsShort(mode: Mode, f: Fields, callback: bool, attempts: seq<Attempt>)
    requires mode.background
    ensures var run := Poll(mode, f.listenID, f, 1, callback, attempts);
      && Count(run.log, Tried) <= 2
      && (|attempts| >= 2 ==> run.ended.Some?)
      && (|attempts| >= 1 && KindOf(attempts[0].outcome) != Retry ==> run.ended.Some? && Count(run.log, Tried) == 1)
  {
    if attempts != [] {
      FirstAttempt(mode, f, callback, attempts);
      SecondAttempt(mode, f.listenID, FieldsAfter(f, attempts[0]), callback, attempts[1..]);
    }
  }

  /**
   * In background mode too a superseded generation starts no further attempt: there is a second one
   * exactly when the first was a retry whose generation still stands.
   */
  lemma BackgroundAttemptStarts(mode: Mode, f: Fields, callback: bool, attempts: seq<Attempt>)
    requires mode.background && |attempts| >= 2
    ensures Count(Poll(mode, f.listenID, f, 1, callback, attempts).log, Tried) > 1 <==>
      KindOf(attempts[0].outcome) == Retry && !Superseded(f, attempts[0])
  {
    SupersededIsBumped(f, attempts[0]);
    FirstAttempt(mode, f, callback, attempts);
    SecondAttempt(mode, f.listenID, FieldsAfter(f, attempts[0]), callback, attempts[1..]);
  }

  // ----- Closing -----

  /** A connection opened. */
  predicate Opens(o: Outcome) {
    o.Response? && o.status < 400
  }

  lemma {:induction false} TouchesSplit(f: Fields, first: seq<Touch>, second: seq<Touch>)
    ensures AfterTouches(f, first + second) == AfterTouches(AfterTouches(f, first), second)
    ensures Bumps(f, first + second) <==> Bumps(f, first) || Bumps(AfterTouches(f, first), second)
    decreases |first|
  {
    if first == [] {
      assert first + second == second;
    } else {
      assert (first + second)[0] == first[0] && (first + second)[1..] == first[1..] + second;
      TouchesSplit(Touched(f, first[0]), first[1..], second);
    }
  }

  /** Whether the field holds a connection in the end: the last step that sets or empties it decides. */
  predicate LeftConnected(connected: bool, touches: seq<Touch>) {
    if touches == [] then connected
    else match touches[|touches| - 1]
      case StartLoop => LeftConnected(connected, touches[..|touches| - 1])
      case SetConnection => true
      case _ => false
  }

  lemma {:induction false} TouchesLeave(f: Fields, touches: seq<Touch>)
    ensures AfterTouches(f, touches).connected <==> LeftConnected(f.connected, touches)
  {
    if touches != [] {
      var before, last := touches[..|touches| - 1], touches[|touches| - 1];
      assert touches == before + [last] && [last][1..] == [];
      TouchesLeave(f, before);
      TouchesSplit(f, before, [last]);
    }
  }

  lemma CloseAmong(f: Fields, earlier: seq<Touch>, later: seq<Touch>)
    ensures Bumps(f, earlier + ([CloseConnection] + later)) <==>
      || Bumps(f, earlier) || LeftConnected(f.connected, earlier)
      || Bumps(Touched(AfterTouches(f, earlier), CloseConnection), later)
  {
    TouchesSplit(f, earlier, [CloseConnection] + later);
    TouchesLeave(f, earlier);
    assert ([CloseConnection] + later)[1..] == later;
  }

  /**
   * What a close does to the loop whose connection is being read: apart from what bumps the
   * generation anyway, it stops the loop exactly if nobody has emptied the field since the connection
   * opened, or another loop has filled it again.
   */
  lemma CloseStopsExactly(f: Fields, a: Attempt, earlier: seq<Touch>, later: seq<Touch>)
    requires Opens(a.outcome) && a.during == earlier + ([CloseConnection] + later)
    ensures Superseded(f, a) <==>
      || Bumps(f, a.before) || Bumps(Answered(f, a), earlier)
      || LeftConnected(true, earlier)
      || Bumps(Touched(AfterTouches(Answered(f, a), earlier), CloseConnection), later) || Bumps(ReadOut(f, a), a.behind)
  {
    CloseAmong(Answered(f, a), earlier, later);
  }

  /**
   * A close between the end of the read and the next turn finds what other loops have left there since,
   * and one during an attempt that gets no connection finds what there was before it.
   */
  lemma CloseElsewhere(f: Fields, a: Attempt, earlier: seq<Touch>, later: seq<Touch>)
    ensures Opens(a.outcome) && a.behind == earlier + ([CloseConnection] + later) && LeftConnected(false, earlier) ==>
      Superseded(f, a)
    ensures Opens(a.outcome) && a.before == [] && a.during == [] && a.behind == [CloseConnection] ==> !Superseded(f, a)
    ensures !Opens(a.outcome) && a.before == [CloseConnection] && a.during == [] && a.behind == [] ==>
      (Superseded(f, a) <==> f.connected)
  {
    CloseAmong(ReadOut(f, a), earlier, later);
    CloseAmong(ReadOut(f, a), [], []);
    CloseAmong(f, [], []);
    assert [] + ([CloseConnection] + []) == [CloseConnection];
  }

  /**
   * Closing does not always stop an open loop: when an older loop has ended its read in between and
   * cleared the field, the close finds nothing and the open loop goes on.
   */
  lemma CloseMissesOpenLoop(a: Attempt)
    requires a == Attempt(Response(200, true), [], [ClearConnection, CloseConnection], [])
    ensures var f := Fields(1, false);
      && !Superseded(f, a)
      && Count(Poll(Mode(true, false), 1, f, 1, false, [a, a]).log, Tried) > 1
  {
    var f := Fields(1, false);
    assert a.during[1..] == [CloseConnection] && [CloseConnection][1..] == [];
    AttemptStarts(Mode(true, false), f, 1, false, [a, a], 1);
    assert Passes(f, [a, a], 0);
  }

  /** A close during a failing attempt stops the loop when an older loop's connection is still in the field. */
  lemma StaleConnectionStopsLoop(a: Attempt)
    requires a == Attempt(NoResponse, [CloseConnection], [], [])
    ensures Superseded(Fields(1, true), a) && !Superseded(Fields(1, false), a)
    ensures Count(Poll(Mode(true, false), 1, Fields(1, true), 1, false, [a, a]).log, Tried) <= 1
    ensures Count(Poll(Mode(true, false), 1, Fields(1, false), 1, false, [a, a]).log, Tried) > 1
  {
    assert [CloseConnection][1..] == [];
    AttemptStarts(Mode(true, false), Fields(1, true), 1, false, [a, a], 1);
    AttemptStarts(Mode(true, false), Fields(1, false), 1, false, [a, a], 1);
    assert !Passes(Fields(1, true), [a, a], 0) && Passes(Fields(1, false), [a, a], 0);
  }

  // ----- What each attempt tells -----

  /** No further attempt will help. */
  predicate IsHopeless(o: Outcome) {
    o == RefreshError || (o.Response? && (o.status == 401 || o.status == 403))
  }

  /** How many attempts have failed since a connection was last open, when n had before. */
  function FailuresInARow(n: nat, attempts: seq<Attempt>): nat
    decreases |attempts|
  {
    if attempts == [] then n else FailuresInARow(if Opens(attempts[0].outcome) then 0 else n + 1, attempts[1..])
  }

  predicate NeverOpened(attempts: seq<Attempt>) {
    forall i :: 0 <= i < |attempts| ==> !Opens(attempts[i].outcome)
  }

  /** A run that has not ended goes on with one more attempt as its failures and its callback stand. */
  lemma {:induction false} OneMoreAttempt(
    mode: Mode, mine: int, f: Fields, n: nat, callback: bool, attempts: seq<Attempt>, a: Attempt)
    ensures var run := Poll(mode, mine, f, n, callback, attempts);
      Poll(mode, mine, f, n, callback, attempts + [a]) ==
        if run.ended.Some? then run
        else Prefixed(run.log,
          Poll(mode, mine, run.fields, FailuresInARow(n, attempts), callback && NeverOpened(attempts), [a]))
    ensures var run := Poll(mode, mine, f, n, callback, attempts);
      run.ended.None? ==> run.fields.listenID == mine
    decreases |attempts|
  {
    if f.listenID != mine {
    } else if attempts == [] {
      assert attempts + [a] == [a];
      PrefixedByNothing(Poll(mode, mine, f, n, callback, [a]));
    } else {
      var longer := attempts + [a];
      assert longer[0] == attempts[0] && longer[1..] == attempts[1..] + [a];
      var turn := TurnOf(mode, n, callback, attempts[0].outcome);
      var next := FieldsAfter(f, attempts[0]);
      if turn.ended.None? {
        TurnGoesOn(mode, n, callback, attempts);
        OneMoreAttempt(mode, mine, next, turn.errorCount, turn.callback, attempts[1..], a);
        var rest := Poll(mode, mine, next, turn.errorCount, turn.callback, attempts[1..]);
        if rest.ended.None? {
          PrefixedTwice(turn.actions, rest.log, turn.actions + rest.log,
            Poll(mode, mine, rest.fields, FailuresInARow(n, attempts), callback && NeverOpened(attempts), [a]));
        }
      }
    }
  }

  lemma TurnGoesOn(mode: Mode, n: nat, callback: bool, attempts: seq<Attempt>)
    requires attempts != []
    requires TurnOf(mode, n, callback, attempts[0].outcome).ended.None?
    ensures var turn := TurnOf(mode, n, callback, attempts[0].outcome);
      && turn.errorCount >= 0 && FailuresInARow(n, attempts) == FailuresInARow(turn.errorCount, attempts[1..])
      && (callback && NeverOpened(attempts) <==> turn.callback && NeverOpened(attempts[1..]))
  {
    if NeverOpened(attempts) {
      assert NeverOpened(attempts[1..]);
    } else if !Opens(attempts[0].outcome) {
      var i :| 0 <= i < |attempts| && Opens(attempts[i].outcome);
      assert Opens(attempts[1..][i - 1].outcome);
    }
  }

  /** What is told of an attempt when n have failed since a connection was last open. Errors concern logged-in users. */
  function ToldOf(mode: Mode, n: nat, callback: bool, o: Outcome): seq<Action> {
    if IsHopeless(o) then (if mode.loggedIn then [FatalError] else [])
    else if Opens(o) then
      (if mode.loggedIn && n > 0 then [Recovered] else []) + ([Connected] + if callback then [FirstConnect] else [])
    else
      (if mode.loggedIn then [TemporaryError] else [])
      + if mode.background && n >= 2 then [] else [Slept(if mode.background then 2 * (n + 1) else 5 * (n + 2))]
  }

  /** What the attempt ends the run with, if it does: a run whose generation has passed ends well. */
  function EndsWith(mode: Mode, n: nat, o: Outcome, passed: bool): Option<bool> {
    if IsHopeless(o) then Some(false)
    else if mode.background && Opens(o) then Some(o.receivedEvents)
    else if mode.background && n >= 2 then Some(false)
    else if passed then Some(true)
    else None
  }

  /**
   * In every run that has not ended, one more attempt is made and told of by how it went and how many
   * have failed in a row, the first failure counting as the second: hopeless answers end the run, other
   * errors sleep longer each time, an open connection is a recovery after any failure, and the callback
   * is for the first connection. A run that has ended does nothing more.
   */
  lemma AttemptTells(mode: Mode, f: Fields, callback: bool, attempts: seq<Attempt>, a: Attempt)
    ensures var run := Poll(mode, f.listenID, f, 1, callback, attempts);
      var next := Poll(mode, f.listenID, f, 1, callback, attempts + [a]);
      var n := FailuresInARow(1, attempts);
      if run.ended.Some? then next == run
      else
        var told := ToldOf(mode, n, callback && NeverOpened(attempts), a.outcome);
        && next.fields == FieldsAfter(run.fields, a)
        && next.log == run.log + ([Tried] + told)
        && next.ended == EndsWith(mode, n, a.outcome, next.fields.listenID != f.listenID)
  {
    var run := Poll(mode, f.listenID, f, 1, callback, attempts);
    OneMoreAttempt(mode, f.listenID, f, 1, callback, attempts, a);
    if run.ended.None? {
      LastAttempt(mode, run.fields, FailuresInARow(1, attempts), callback && NeverOpened(attempts), a);
    }
  }

  lemma TurnTells(mode: Mode, n: nat, callback: bool, o: Outcome)
    ensures var turn := TurnOf(mode, n, callback, o);
      && turn.actions == [Tried] + ToldOf(mode, n, callback, o)
      && turn.ended == EndsWith(mode, n, o, false)
      && (turn.ended.None? ==> EndsWith(mode, n, o, true) == Some(true))
      && (turn.ended.Some? ==> EndsWith(mode, n, o, true) == turn.ended)
  {
  }

  lemma LastAttempt(mode: Mode, f: Fields, n: nat, callback: bool, a: Attempt)
    ensures var run, told := Poll(mode, f.listenID, f, n, callback, [a]), ToldOf(mode, n, callback, a.outcome);
      && run.fields == FieldsAfter(f, a)
      && run.log == [Tried] + told
      && run.ended == EndsWith(mode, n, a.outcome, run.fields.listenID != f.listenID)
  {
    TurnTells(mode, n, callback, a.outcome);
    var actions := TurnOf(mode, n, callback, a.outcome).actions;
    assert actions + [] == actions && [a][1..] == [];
  }
}

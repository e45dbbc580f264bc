/**
 * Incoming RPC messages (pkg/libgm/event_handler.go): acknowledging, matching with waiters, marking
 * the backlog of a reconnect as old, and handing updates to the event handler.
 */
module Updates {
  import opened Basics
  import Dedup = DedupRing
  import Rpc = Session
  import opened LongPollReader

  datatype Route = PairEvent | GaiaEvent | DataEvent | UnknownRoute

  /** The event of a GET_UPDATES message; conversations and messages are named by their ids. */
  datatype Update =
    | UserAlert
    | SettingsUpdate
    | Conversations(ids: seq<string>)
    | Messages(ids: seq<string>)
    | Typing
    | BrowserPresenceCheck
    | AccountChange
    | UnknownUpdate

  datatype Incoming = Incoming(
    responseID: string, route: Route,
    decodes: bool,               // whether decryptInternalMessage succeeds
    sessionID: string,
    isGetUpdates: bool, isPairingAction: bool,
    hasUnencrypted: bool, hasEncrypted: bool,
    isLogoutMarker: bool,        // the unencrypted bytes that stand for a Google logout
    contentHash: Option<int>,    // of the decrypted data, if there is any
    update: Update,
    fakeAccountChange: bool)     // decoding it triggers an account change event

  datatype Event =
    | AlertEvent | SettingsEvent | ConversationEvent(id: string) | MessageEvent(id: string, isOld: bool) | TypingEvent
    | PresenceAck | AccountChangeEvent(isFake: bool) | LoggedOut | PairingEvent | DataReceived

  /** A decoded data message that is no response, and whether it was marked old. */
  datatype Handled = Handled(msg: Incoming, isOld: bool)

  // ----- What one message does -----

  predicate MayBeResponse(hasCookies: bool, m: Incoming) {
    m.route == DataEvent && !(hasCookies && !m.isPairingAction && m.hasUnencrypted && !m.hasEncrypted)
  }

  predicate IsResponse(hasCookies: bool, m: Incoming, awaited: set<string>) {
    MayBeResponse(hasCookies, m) && m.sessionID in awaited
  }

  /** The ids of an update that pass the duplicate filter; without decrypted data nothing is filtered. */
  function Passing(history: seq<Dedup.Item>, m: Incoming, ids: seq<string>): Dedup.Outcome {
    match m.contentHash
    case None => Dedup.Outcome(history, ids)
    case Some(hash) => Dedup.Deliver(history, ids, hash)
  }

  function AsConversations(ids: seq<string>): seq<Event> {
    seq(|ids|, i requires 0 <= i < |ids| => ConversationEvent(ids[i]))
  }

  function AsMessages(ids: seq<string>, isOld: bool): seq<Event> {
    seq(|ids|, i requires 0 <= i < |ids| => MessageEvent(ids[i], isOld))
  }

  predicate IsLogout(m: Incoming) {
    m.contentHash == None && m.isLogoutMarker
  }

  /** The history that handleUpdatesEvent leaves in the duplicate filter. */
  function HistoryAfter(history: seq<Dedup.Item>, m: Incoming): seq<Dedup.Item> {
    if !m.isGetUpdates || IsLogout(m) then history
    else match m.update
      case Conversations(ids) => Passing(history, m, ids).history
      case Messages(ids) => Passing(history, m, ids).history
      case _ => history
  }

  function UpdateEvents(history: seq<Dedup.Item>, m: Incoming, isOld: bool): seq<Event> {
    match m.update
    case UserAlert => if isOld then [] else [AlertEvent]
    case SettingsUpdate => [SettingsEvent]
    case Conversations(ids) => if isOld then [] else AsConversations(Passing(history, m, ids).emitted)
    case Messages(ids) => AsMessages(Passing(history, m, ids).emitted, isOld)
    case Typing => if isOld then [] else [TypingEvent]
    case BrowserPresenceCheck => [PresenceAck]
    case AccountChange => [AccountChangeEvent(false)]
    case UnknownUpdate => []
  }

  function EventsOf(history: seq<Dedup.Item>, m: Incoming, isOld: bool): seq<Event> {
    if !m.isGetUpdates then []
    else if IsLogout(m) then [LoggedOut]
    else (if isOld then [] else [DataReceived]) + UpdateEvents(history, m, isOld)
  }

  /** What the client remembers between messages. */
  datatype State = State(skipCount: int, awaited: set<string>, acks: Rpc.AckState, history: seq<Dedup.Item>)

  datatype Effect = Effect(state: State, events: seq<Event>, handled: seq<Handled>)

  function Handle(hasCookies: bool, s: State, m: Incoming): Effect {
    if !m.decodes || m.route == UnknownRoute then Effect(Acked(s, m), FakeEvents(m), [])
    else
      var effect := HandleDecoded(hasCookies, s, m);
      effect.(events := FakeEvents(m) + effect.events)
  }

  lemma HandleKnown(hasCookies: bool, s: State, m: Incoming, told: seq<Event>)
    requires m.decodes && m.route != UnknownRoute
    ensures var effect, decoded := Handle(hasCookies, s, m), HandleDecoded(hasCookies, s, m);
      && effect.state == decoded.state && effect.handled == decoded.handled
      && told + effect.events == told + FakeEvents(m) + decoded.events
  {
  }

  function Acked(s: State, m: Incoming): State {
    s.(acks := Rpc.AckNext(s.acks, Rpc.Queue(m.responseID)))
  }

  function FakeEvents(m: Incoming): seq<Event> {
    if m.decodes && m.fakeAccountChange then [AccountChangeEvent(true)] else []
  }

  function HandleDecoded(hasCookies: bool, s: State, m: Incoming): Effect {
    if IsResponse(hasCookies, m, s.awaited) then Effect(Acked(s, m).(awaited := s.awaited - {m.sessionID}), [], [])
    else
      var effect := Dispatched(s.skipCount, s.history, m);
      Effect(Acked(s, m).(skipCount := effect.0, history := effect.1), effect.2, effect.3)
  }

  /** The skip counter, the filter's history, the events and the record of a message that is no response. */
  function Dispatched(skipCount: int, history: seq<Dedup.Item>, m: Incoming):
    (int, seq<Dedup.Item>, seq<Event>, seq<Handled>)
  {
    if m.route != DataEvent then (skipCount, history, [PairingEvent], [])
    else
      var isOld := skipCount > 0;
      (if isOld then skipCount - 1 else skipCount,
       HistoryAfter(history, m), EventsOf(history, m, isOld), [Handled(m, isOld)])
  }

  // ----- The client -----

  class Client {
    const session: Rpc.SessionHandler
    const recent: Dedup.Ring
    const hasCookies: bool
    var skipCount: int
    var triggered: seq<Event>
    ghost var batches: seq<seq<string>>

    ghost predicate Valid()
      reads this, session, recent, recent.slots
    {
      Rpc.Inv(session.View()) && recent.Valid()
    }

    ghost function View(): State
      reads this, session, recent
    {
      State(skipCount, session.responseWaiters.Keys, Rpc.AckState(session.ackMap, batches), recent.history)
    }

    constructor (hasCookies: bool)
      ensures Valid() && fresh(session) && fresh(recent) && fresh(recent.slots)
      ensures View() == State(0, {}, Rpc.AckState([], []), []) && triggered == [] && this.hasCookies == hasCookies
    {
      session := new Rpc.SessionHandler();
      recent := new Dedup.Ring();
      this.hasCookies := hasCookies;
      skipCount, triggered, batches := 0, [], [];
    }

    method HandleRPCMsg(m: Incoming) returns (ghost handled: seq<Handled>)
      requires Valid()
      modifies this, session, recent, recent.slots
      ensures Valid()
      ensures var effect := Handle(hasCookies, old(View()), m);
        View() == effect.state && triggered == old(triggered) + effect.events && handled == effect.handled
    {
      TriggerFake(m);
      ghost var s := View();
      assert s == old(View());
      if !m.decodes || m.route == UnknownRoute {
        QueueOnly(m);
        return [];
      }
      HandleKnown(hasCookies, s, m, old(triggered));
      handled := HandleDecodedMsg(m);
    }

    method TriggerFake(m: Incoming)
      modifies this`triggered
      ensures triggered == old(triggered) + FakeEvents(m)
    {
      if m.decodes && m.fakeAccountChange {
        triggered := triggered + [AccountChangeEvent(true)];
      }
    }

    method QueueOnly(m: Incoming)
      requires Valid()
      modifies session
      ensures Valid() && View() == old(View()).(acks := Rpc.AckNext(old(View()).acks, Rpc.Queue(m.responseID)))
    {
      session.QueueMessageAck(m.responseID);
    }

    method HandleDecodedMsg(m: Incoming) returns (ghost handled: seq<Handled>)
      requires Valid() && m.decodes && m.route != UnknownRoute
      modifies this, session, recent, recent.slots
      ensures Valid()
      ensures var effect := HandleDecoded(hasCookies, old(View()), m);
        View() == effect.state && triggered == old(triggered) + effect.events && handled == effect.handled
    {
      handled := [];
      var consumed := AckAndMatch(m);
      if !consumed {
        handled := Dispatch(m);
      }
    }

    /** Queues the acknowledgement and looks for a waiter. */
    method AckAndMatch(m: Incoming) returns (consumed: bool)
      requires Rpc.Inv(session.View())
      modifies session
      ensures Rpc.Inv(session.View())
      ensures session.ackMap == Rpc.AckNext(Rpc.AckState(old(session.ackMap), []), Rpc.Queue(m.responseID)).pending
      ensures consumed == IsResponse(hasCookies, m, old(session.responseWaiters.Keys))
      ensures session.responseWaiters.Keys == old(session.responseWaiters.Keys) - if consumed then {m.sessionID} else {}
    {
      session.QueueMessageAck(m.responseID);
      consumed := false;
      if MayBeResponse(hasCookies, m) {
        consumed := session.ReceiveResponse(Rpc.Message(m.responseID, m.sessionID));
      }
    }

    /** The part of HandleRPCMsg behind the response check. */
    method Dispatch(m: Incoming) returns (ghost handled: seq<Handled>)
      requires recent.Valid() && m.decodes && m.route != UnknownRoute
      modifies this`triggered, this`skipCount, recent, recent.slots
      ensures recent.Valid()
      ensures var effect := Dispatched(old(skipCount), old(recent.history), m);
        && skipCount == effect.0 && recent.history == effect.1
        && triggered == old(triggered) + effect.2 && handled == effect.3
    {
      if m.route != DataEvent {
        triggered := triggered + [PairingEvent];
        return [];
      }
      var isOld := CountDown();
      HandleUpdatesEvent(m, isOld);
      handled := [Handled(m, isOld)];
    }

    /** The skip counter: whether the next data message still belongs to the backlog. */
    method CountDown() returns (isOld: bool)
      modifies this`skipCount
      ensures isOld == (old(skipCount) > 0)
      ensures skipCount == if isOld then old(skipCount) - 1 else old(skipCount)
    {
      isOld := false;
      if skipCount > 0 {
        skipCount := skipCount - 1;
        isOld := true;
      }
    }

    method HandleUpdatesEvent(m: Incoming, isOld: bool)
      requires recent.Valid()
      modifies this`triggered, recent, recent.slots
      ensures recent.Valid()
      ensures recent.history == HistoryAfter(old(recent.history), m)
      ensures triggered == old(triggered) + EventsOf(old(recent.history), m, isOld)
    {
      if !m.isGetUpdates {
        return;
      }
      if m.contentHash == None && m.isLogoutMarker {
        triggered := triggered + [LoggedOut];
        return;
      }
      if !isOld {
        triggered := triggered + [DataReceived];
      }
      ghost var before := triggered;
      HandleUpdate(m, isOld);
      assert triggered == before + UpdateEvents(old(recent.history), m, isOld);
    }

    /** The event itself, once it is known to be news. */
    method HandleUpdate(m: Incoming, isOld: bool)
      requires recent.Valid() && m.isGetUpdates && !IsLogout(m)
      modifies this`triggered, recent, recent.slots
      ensures recent.Valid()
      ensures recent.history == HistoryAfter(old(recent.history), m)
      ensures triggered == old(triggered) + UpdateEvents(old(recent.history), m, isOld)
    {
      match m.update
      case UserAlert =>
        if !isOld {
          triggered := triggered + [AlertEvent];
        }
      case SettingsUpdate => triggered := triggered + [SettingsEvent];
      case Conversations(ids) =>
        var passing := FilterIds(m, ids);
        if !isOld {
          triggered := triggered + AsConversations(passing);
        }
      case Messages(ids) =>
        var passing := FilterIds(m, ids);
        triggered := triggered + AsMessages(passing, isOld);
      case Typing =>
        if !isOld {
          triggered := triggered + [TypingEvent];
        }
      case BrowserPresenceCheck => triggered := triggered + [PresenceAck];
      case AccountChange => triggered := triggered + [AccountChangeEvent(false)];
      case UnknownUpdate =>
    }

    /** deduplicateUpdate for part after part. */
    method FilterIds(m: Incoming, ids: seq<string>) returns (passing: seq<string>)
      requires recent.Valid()
      modifies recent, recent.slots
      ensures recent.Valid()
      ensures Dedup.Outcome(recent.history, passing) == Passing(old(recent.history), m, ids)
    {
      if m.contentHash == None {
        return ids;
      }
      passing := Dedup.DeliverEvent(recent, ids, m.contentHash.value);
    }

    /** The ticker's sendAckRequest; batches records what was taken. */
    method TakeAcks() returns (dataToAck: seq<string>)
      requires Valid()
      modifies this`batches, session
      ensures Valid() && dataToAck == old(session.ackMap)
      ensures View() == Perform(hasCookies, old(View()), Op.TakeAcks).state
    {
      dataToAck := session.SendAckRequest();
      if |dataToAck| > 0 {
        batches := batches + [dataToAck];
      }
    }

    /** What readLongPoll does with a decoded block. */
    method HandlePayload(p: Payload<Incoming>) returns (ghost handled: seq<Handled>)
      requires Valid()
      modifies this, session, recent, recent.slots
      ensures Valid()
      ensures var effect := HandleOne(hasCookies, old(View()), p);
        View() == effect.state && triggered == old(triggered) + effect.events && handled == effect.handled
    {
      handled := [];
      match p
      case Data(m) => handled := HandleRPCMsg(m);
      case Ack(count) => skipCount := count;
      case _ =>
    }
  }

  function HandleOne(hasCookies: bool, s: State, p: Payload<Incoming>): Effect {
    match p
    case Data(m) => Handle(hasCookies, s, m)
    case Ack(count) => Effect(s.(skipCount := count), [], [])
    case _ => Effect(s, [], [])
  }

  // ----- Runs: the stream, interleaved with what other goroutines do -----

  datatype Op =
    | Block(payload: Payload<Incoming>)
    | AwaitResponse(sessionID: string)
    | GiveUp(sessionID: string)
    | TakeAcks

  function Perform(hasCookies: bool, s: State, op: Op): Effect {
    match op
    case Block(p) => HandleOne(hasCookies, s, p)
    case AwaitResponse(id) => Effect(s.(awaited := s.awaited + {id}), [], [])
    case GiveUp(id) => Effect(s.(awaited := s.awaited - {id}), [], [])
    case TakeAcks => Effect(s.(acks := Rpc.AckNext(s.acks, Rpc.TakeBatch)), [], [])
  }

  function Joined(first: Effect, second: Effect): Effect {
    Effect(second.state, first.events + second.events, first.handled + second.handled)
  }

  function Run(hasCookies: bool, s: State, ops: seq<Op>): Effect
    decreases |ops|
  {
    if ops == [] then Effect(s, [], [])
    else
      var first := Perform(hasCookies, s, ops[0]);
      Joined(first, Run(hasCookies, first.state, ops[1..]))
  }

  lemma JoinedTwice(a: Effect, b: Effect, c: Effect)
    ensures Joined(a, Joined(b, c)) == Joined(Joined(a, b), c)
  {
    assert a.events + (b.events + c.events) == a.events + b.events + c.events;
    assert a.handled + (b.handled + c.handled) == a.handled + b.handled + c.handled;
  }

  lemma JoinedAlone(s: State, e: Effect)
    ensures Joined(Effect(s, [], []), e) == e && Joined(e, Effect(e.state, [], [])) == e
  {
  }

  lemma RunOfOne(hasCookies: bool, s: State, ops: seq<Op>)
    requires |ops| == 1
    ensures Run(hasCookies, s, ops) == Perform(hasCookies, s, ops[0])
  {
    JoinedAlone(s, Perform(hasCookies, s, ops[0]));
  }

  lemma RunStarts(hasCookies: bool, s: State, ops: seq<Op>, first: Effect)
    requires ops != [] && first == Perform(hasCookies, s, ops[0])
    ensures Run(hasCookies, s, ops) == Joined(first, Run(hasCookies, first.state, ops[1..]))
  {
  }

  /** The last operation acts on what the others left, and adds its events and its message behind theirs. */
  lemma {:induction false} RunSplits(hasCookies: bool, s: State, ops: seq<Op>)
    requires ops != []
    ensures var before := Run(hasCookies, s, ops[..|ops| - 1]);
      Run(hasCookies, s, ops) == Joined(before, Perform(hasCookies, before.state, ops[|ops| - 1]))
    decreases |ops|
  {
    var n := |ops| - 1;
    if n > 0 {
      var first := Perform(hasCookies, s, ops[0]);
      RunSplits(hasCookies, first.state, ops[1..]);
      SplitBehind(hasCookies, s, ops, first);
    } else {
      RunOfOne(hasCookies, s, ops);
      JoinedAlone(s, Run(hasCookies, s, ops));
    }
  }

  lemma SplitBehind(hasCookies: bool, s: State, ops: seq<Op>, first: Effect)
    requires |ops| > 1 && first == Perform(hasCookies, s, ops[0])
    requires var n := |ops| - 1;
      var middle := Run(hasCookies, first.state, ops[1..][..n - 1]);
      Run(hasCookies, first.state, ops[1..]) == Joined(middle, Perform(hasCookies, middle.state, ops[1..][n - 1]))
    ensures var before := Run(hasCookies, s, ops[..|ops| - 1]);
      Run(hasCookies, s, ops) == Joined(before, Perform(hasCookies, before.state, ops[|ops| - 1]))
  {
    var n := |ops| - 1;
    var middle := Run(hasCookies, first.state, ops[1..][..n - 1]);
    assert ops[..n][1..] == ops[1..][..n - 1];
    RunStarts(hasCookies, s, ops, first);
    RunStarts(hasCookies, s, ops[..n], first);
    JoinedTwice(first, middle, Perform(hasCookies, middle.state, ops[n]));
  }

  predicate IsAckCount(op: Op) {
    op.Block? && op.payload.Ack?
  }

  lemma OneCountsDown(hasCookies: bool, s: State, op: Op)
    requires !IsAckCount(op)
    ensures var effect := Perform(hasCookies, s, op);
      && |effect.handled| <= 1
      && (effect.handled != [] ==> effect.handled[0].isOld == (s.skipCount > 0))
      && effect.state.skipCount == if effect.handled != [] && s.skipCount > 0 then s.skipCount - 1 else s.skipCount
  {
  }

  /**
   * After a startup ack count of n, until the next one, exactly the first n decoded data messages
   * that are no responses are marked old, whatever happens in between.
   */
  lemma {:induction false} FirstNAreOld(hasCookies: bool, s: State, ops: seq<Op>, k: nat)
    requires forall i :: 0 <= i < |ops| ==> !IsAckCount(ops[i])
    requires k < |Run(hasCookies, s, ops).handled|
    ensures Run(hasCookies, s, ops).handled[k].isOld <==> k < s.skipCount
    decreases |ops|
  {
    var first := Perform(hasCookies, s, ops[0]);
    assert !IsAckCount(ops[0]);
    RunStarts(hasCookies, s, ops, first);
    OneCountsDown(hasCookies, s, ops[0]);
    if k >= |first.handled| {
      FirstNAreOld(hasCookies, first.state, ops[1..], k - |first.handled|);
    }
  }

  lemma AckCountMarks(hasCookies: bool, s: State, n: int, ops: seq<Op>, k: nat)
    requires forall i :: 0 <= i < |ops| ==> !IsAckCount(ops[i])
    requires k < |Run(hasCookies, s, [Block(Ack(n))] + ops).handled|
    ensures Run(hasCookies, s, [Block(Ack(n))] + ops).handled[k].isOld <==> k < n
  {
    assert ([Block(Ack(n))] + ops)[1..] == ops;
    FirstNAreOld(hasCookies, s.(skipCount := n), ops, k);
  }

  lemma OldMessages(ids: seq<string>, e: Event)
    requires e in AsMessages(ids, true)
    ensures e.MessageEvent? && e.isOld && MessageEvent(e.id, false) in AsMessages(ids, false)
  {
    var i :| 0 <= i < |ids| && AsMessages(ids, true)[i] == e;
    assert AsMessages(ids, false)[i] == MessageEvent(e.id, false);
  }

  lemma OldUpdate(history: seq<Dedup.Item>, m: Incoming, e: Event)
    requires e in UpdateEvents(history, m, true)
    ensures !e.ConversationEvent? && e != AlertEvent && e != TypingEvent && e != DataReceived
    ensures e.MessageEvent? ==> e.isOld && MessageEvent(e.id, false) in UpdateEvents(history, m, false)
    ensures !e.MessageEvent? ==> e in UpdateEvents(history, m, false)
  {
    if m.update.Messages? {
      OldMessages(Passing(history, m, m.update.ids).emitted, e);
    }
  }

  /**
   * From an old message no conversation, alert or typing event is emitted and message events say that
   * they are old; apart from that mark every event of an old message is one of the new message too.
   */
  lemma OldIsQuiet(history: seq<Dedup.Item>, m: Incoming, e: Event)
    requires e in EventsOf(history, m, true)
    ensures !e.ConversationEvent? && e != AlertEvent && e != TypingEvent && e != DataReceived
    ensures e.MessageEvent? ==> e.isOld && MessageEvent(e.id, false) in EventsOf(history, m, false)
    ensures !e.MessageEvent? ==> e in EventsOf(history, m, false)
  {
    if m.isGetUpdates && !IsLogout(m) {
      OldUpdate(history, m, e);
    }
  }

  predicate IsQuiet(e: Event) {
    !e.ConversationEvent? && e != AlertEvent && e != TypingEvent && (e.MessageEvent? ==> e.isOld)
  }

  lemma OldHandledIsQuiet(hasCookies: bool, s: State, op: Op)
    requires var effect := Perform(hasCookies, s, op); effect.handled != [] && effect.handled[0].isOld
    ensures forall e :: e in Perform(hasCookies, s, op).events ==> IsQuiet(e)
  {
    var m := op.payload.msg;
    var effect := Perform(hasCookies, s, op);
    assert effect.events == FakeEvents(m) + EventsOf(s.history, m, true);
    forall e | e in effect.events
      ensures IsQuiet(e)
    {
      if e in EventsOf(s.history, m, true) {
        OldIsQuiet(s.history, m, e);
      }
    }
  }

  /**
   * After a startup ack count of n, until the next one: the operation that handles one of the first n
   * messages adds only quiet events to the stream, no conversation, alert or typing event among them.
   */
  lemma BacklogIsQuiet(hasCookies: bool, s: State, n: int, ops: seq<Op>, op: Op)
    requires forall i :: 0 <= i < |ops| ==> !IsAckCount(ops[i])
    requires !IsAckCount(op)
    requires var start := [Block(Ack(n))];
      var before, after := Run(hasCookies, s, start + ops), Run(hasCookies, s, start + ops + [op]);
      |before.handled| < |after.handled| && |before.handled| < n
    ensures var start := [Block(Ack(n))];
      var before, after := Run(hasCookies, s, start + ops), Run(hasCookies, s, start + ops + [op]);
      before.events <= after.events && forall e :: e in after.events[|before.events|..] ==> IsQuiet(e)
  {
    var start := [Block(Ack(n))];
    var all := start + ops + [op];
    assert all[..|all| - 1] == start + ops && all == start + (ops + [op]);
    var before := Run(hasCookies, s, start + ops);
    var effect := Perform(hasCookies, before.state, op);
    RunSplits(hasCookies, s, all);
    AckCountMarks(hasCookies, s, n, ops + [op], |before.handled|);
    assert effect.handled[0] == Run(hasCookies, s, all).handled[|before.handled|];
    OldHandledIsQuiet(hasCookies, before.state, op);
  }

  /** The acknowledgement queue sees every message id of the stream, in order, and every batch taken. */
  function AckOps(ops: seq<Op>): seq<Rpc.AckOp> {
    if ops == [] then []
    else
      var before := AckOps(ops[..|ops| - 1]);
      match AckOpOf(ops[|ops| - 1])
      case None => before
      case Some(a) => before + [a]
  }

  function AckOpOf(op: Op): Option<Rpc.AckOp> {
    match op
    case Block(Data(m)) => Some(Rpc.Queue(m.responseID))
    case TakeAcks => Some(Rpc.TakeBatch)
    case _ => None
  }

  lemma PerformAcks(hasCookies: bool, s: State, op: Op)
    ensures Perform(hasCookies, s, op).state.acks
      == match AckOpOf(op) case None => s.acks case Some(a) => Rpc.AckNext(s.acks, a)
  {
  }

  lemma AckAfterNext(queue: seq<Rpc.AckOp>, a: Rpc.AckOp)
    ensures Rpc.AckAfter(queue + [a]) == Rpc.AckNext(Rpc.AckAfter(queue), a)
  {
    assert (queue + [a])[..|queue|] == queue;
  }

  lemma {:induction false} AcksFollowTheStream(hasCookies: bool, ops: seq<Op>)
    ensures Run(hasCookies, Start(), ops).state.acks == Rpc.AckAfter(AckOps(ops))
  {
    if ops != [] {
      var before, op := ops[..|ops| - 1], ops[|ops| - 1];
      AcksFollowTheStream(hasCookies, before);
      RunSplits(hasCookies, Start(), ops);
      PerformAcks(hasCookies, Run(hasCookies, Start(), before).state, op);
      if AckOpOf(op).Some? {
        AckAfterNext(AckOps(before), AckOpOf(op).value);
      }
    }
  }

  function Start(): State {
    State(0, {}, Rpc.AckState([], []), [])
  }

  predicate Brings(op: Op, id: string) {
    op.Block? && op.payload.Data? && op.payload.msg.responseID == id
  }

  lemma {:induction false} AckOpsContain(ops: seq<Op>, id: string)
    ensures Rpc.Queue(id) in AckOps(ops) <==> exists i :: 0 <= i < |ops| && Brings(ops[i], id)
  {
    if ops != [] {
      var before := ops[..|ops| - 1];
      AckOpsContain(before, id);
      assert forall i :: 0 <= i < |before| ==> before[i] == ops[i];
      var last := ops[|ops| - 1];
      assert ops[|ops| - 1] == last;
    }
  }

  /**
   * For every stream: an id is pending or in a batch that was taken exactly when a message with that
   * id came in, decodable or not; neither what is pending nor any batch holds an id twice.
   */
  lemma EveryMessageIsAcked(hasCookies: bool, ops: seq<Op>, id: string)
    ensures var acks := Run(hasCookies, Start(), ops).state.acks;
      && NoDuplicates(acks.pending)
      && (forall i :: 0 <= i < |acks.batches| ==> NoDuplicates(acks.batches[i]))
      && (Rpc.Holds(acks, id) <==> exists i :: 0 <= i < |ops| && Brings(ops[i], id))
  {
    AcksFollowTheStream(hasCookies, ops);
    Rpc.AcksAreConserved(AckOps(ops), id);
    Rpc.PendingIsDistinct(AckOps(ops));
    AckOpsContain(ops, id);
  }

  // ----- What a message of a run triggers -----

  /** The message could answer the request of its session id. */
  predicate CouldAnswer(hasCookies: bool, m: Incoming) {
    && m.decodes && m.route == DataEvent
    && (hasCookies && m.hasUnencrypted && !m.hasEncrypted ==> m.isPairingAction)
  }

  /** Somebody has registered for the id since it was last given up or answered. */
  predicate IsAwaited(hasCookies: bool, ops: seq<Op>, id: string) {
    ops != [] &&
    var before, last := ops[..|ops| - 1], ops[|ops| - 1];
    if last == AwaitResponse(id) then true
    else if last == GiveUp(id) then false
    else if && last.Block? && last.payload.Data? && last.payload.msg.sessionID == id
            && CouldAnswer(hasCookies, last.payload.msg)
      then false
    else IsAwaited(hasCookies, before, id)
  }

  lemma {:induction false} AwaitedIsHistory(hasCookies: bool, ops: seq<Op>, id: string)
    ensures id in Run(hasCookies, Start(), ops).state.awaited <==> IsAwaited(hasCookies, ops, id)
  {
    if ops != [] {
      AwaitedIsHistory(hasCookies, ops[..|ops| - 1], id);
      RunSplits(hasCookies, Start(), ops);
    }
  }

  predicate IsConsumed(hasCookies: bool, ops: seq<Op>, m: Incoming) {
    CouldAnswer(hasCookies, m) && IsAwaited(hasCookies, ops, m.sessionID)
  }

  /** A decoded data message that no one awaits. */
  predicate IsHandled(hasCookies: bool, ops: seq<Op>, m: Incoming) {
    m.decodes && m.route == DataEvent && !IsConsumed(hasCookies, ops, m)
  }

  /** The parts that an update consists of. */
  function PartsOf(update: Update): seq<string> {
    match update
    case Conversations(ids) => ids
    case Messages(ids) => ids
    case _ => []
  }

  /** The first n parts of the update are new: the next one, if there is one, repeats a record. */
  predicate AreNew(history: seq<Dedup.Item>, m: Incoming, n: nat) {
    match m.contentHash
    case None => n == |PartsOf(m.update)|
    case Some(hash) => Dedup.RepeatsFirstAt(history, PartsOf(m.update), hash, n)
  }

  lemma PassesNew(history: seq<Dedup.Item>, m: Incoming, n: nat)
    requires AreNew(history, m, n)
    ensures n <= |PartsOf(m.update)|
    ensures Passing(history, m, PartsOf(m.update)).emitted == PartsOf(m.update)[..n]
    ensures Passing(history, m, PartsOf(m.update)).history == history +
      if m.contentHash.Some? then Dedup.Items(PartsOf(m.update)[..n], m.contentHash.value) else []
  {
    if m.contentHash.Some? {
      Dedup.DeliversUpToRepeat(history, PartsOf(m.update), m.contentHash.value, n);
    } else {
      assert PartsOf(m.update)[..n] == PartsOf(m.update);
      assert history + [] == history;
    }
  }

  /** What one more message does: behind a run, its effect is added to that of the run. */
  lemma OneMoreBlock(hasCookies: bool, ops: seq<Op>, m: Incoming)
    ensures var before, after := Run(hasCookies, Start(), ops), Run(hasCookies, Start(), ops + [Block(Data(m))]);
      && after == Joined(before, Handle(hasCookies, before.state, m))
      && (IsResponse(hasCookies, m, before.state.awaited) && m.decodes <==> IsConsumed(hasCookies, ops, m))
  {
    var longer := ops + [Block(Data(m))];
    assert longer[..|longer| - 1] == ops;
    RunSplits(hasCookies, Start(), longer);
    AwaitedIsHistory(hasCookies, ops, m.sessionID);
  }

  /** The events that the message adds to those of the run. */
  function Added(hasCookies: bool, ops: seq<Op>, m: Incoming): seq<Event> {
    var before, after := Run(hasCookies, Start(), ops).events, Run(hasCookies, Start(), ops + [Block(Data(m))]).events;
    if |before| <= |after| then after[|before|..] else []
  }

  /** The update is news, not the marker of a logout. */
  predicate IsNews(m: Incoming) {
    m.isGetUpdates && !(m.contentHash == None && m.isLogoutMarker)
  }

  lemma AddedIs(hasCookies: bool, ops: seq<Op>, m: Incoming)
    ensures var before := Run(hasCookies, Start(), ops);
      && before.events <= Run(hasCookies, Start(), ops + [Block(Data(m))]).events
      && Added(hasCookies, ops, m) == (if m.decodes && m.fakeAccountChange then [AccountChangeEvent(true)] else [])
        + if IsHandled(hasCookies, ops, m) then EventsOf(before.state.history, m, before.state.skipCount > 0)
          else if m.decodes && (m.route == PairEvent || m.route == GaiaEvent) then [PairingEvent]
          else []
  {
    var before := Run(hasCookies, Start(), ops);
    OneMoreBlock(hasCookies, ops, m);
    assert Added(hasCookies, ops, m) == Handle(hasCookies, before.state, m).events;
  }

  lemma NewMessages(history: seq<Dedup.Item>, m: Incoming, isOld: bool, n: nat)
    requires IsNews(m) && m.update.Messages? && AreNew(history, m, n)
    ensures n <= |m.update.ids|
    ensures EventsOf(history, m, isOld) == (if isOld then [] else [DataReceived]) + AsMessages(m.update.ids[..n], isOld)
  {
    PassesNew(history, m, n);
  }

  lemma NewConversations(history: seq<Dedup.Item>, m: Incoming, isOld: bool, n: nat)
    requires IsNews(m) && m.update.Conversations? && AreNew(history, m, n)
    ensures n <= |m.update.ids|
    ensures EventsOf(history, m, isOld) == if isOld then [] else [DataReceived] + AsConversations(m.update.ids[..n])
  {
    PassesNew(history, m, n);
  }

  /** How many events come before those for the parts of an update: for a fake account change, and for new data. */
  function LeadingEvents(m: Incoming, isOld: bool): nat {
    (if m.fakeAccountChange then 1 else 0) + (if isOld then 0 else 1)
  }

  /**
   * When a message with texts is handled, each of them up to the first repeated one gives exactly one
   * event, in order, that says whether the message is old.
   */
  lemma MessagesAreTold(hasCookies: bool, ops: seq<Op>, before: State, m: Incoming, n: nat)
    requires before == Run(hasCookies, Start(), ops).state
    requires IsHandled(hasCookies, ops, m) && IsNews(m) && m.update.Messages? && AreNew(before.history, m, n)
    ensures var added, isOld := Added(hasCookies, ops, m), before.skipCount > 0;
      && n <= |m.update.ids| && |added| == LeadingEvents(m, isOld) + n
      && forall i :: 0 <= i < n ==> added[LeadingEvents(m, isOld) + i] == MessageEvent(m.update.ids[i], isOld)
  {
    AddedIs(hasCookies, ops, m);
    NewMessages(before.history, m, before.skipCount > 0, n);
  }

  /** The same of conversations, which are not told of at all when they are old. */
  lemma ConversationsAreTold(hasCookies: bool, ops: seq<Op>, before: State, m: Incoming, n: nat)
    requires before == Run(hasCookies, Start(), ops).state
    requires IsHandled(hasCookies, ops, m) && IsNews(m) && m.update.Conversations? && AreNew(before.history, m, n)
    ensures var added, isOld := Added(hasCookies, ops, m), before.skipCount > 0;
      && n <= |m.update.ids| && |added| == LeadingEvents(m, isOld) + (if isOld then 0 else n)
      && forall i :: 0 <= i < n && !isOld ==> added[LeadingEvents(m, isOld) + i] == ConversationEvent(m.update.ids[i])
  {
    AddedIs(hasCookies, ops, m);
    NewConversations(before.history, m, before.skipCount > 0, n);
  }

  /**
   * All other events, for every message of every run: alerts, typing and the sign of data come exactly
   * if the message is not old; settings, presence checks and account changes always; and nothing comes of
   * a message that answers a request, or is not decoded, but the mark of a fake account change.
   */
  lemma EventsAreExact(hasCookies: bool, ops: seq<Op>, m: Incoming, e: Event)
    requires !e.MessageEvent? && !e.ConversationEvent?
    ensures var isOld := Run(hasCookies, Start(), ops).state.skipCount > 0;
      var news := IsHandled(hasCookies, ops, m) && IsNews(m);
      e in Added(hasCookies, ops, m) <==> match e
        case AlertEvent => news && m.update == UserAlert && !isOld
        case TypingEvent => news && m.update == Typing && !isOld
        case DataReceived => news && !isOld
        case SettingsEvent => news && m.update == SettingsUpdate
        case PresenceAck => news && m.update == BrowserPresenceCheck
        case AccountChangeEvent(isFake) =>
          if isFake then m.decodes && m.fakeAccountChange else news && m.update == AccountChange
        case LoggedOut => IsHandled(hasCookies, ops, m) && m.isGetUpdates && m.contentHash == None && m.isLogoutMarker
        case PairingEvent => m.decodes && (m.route == PairEvent || m.route == GaiaEvent)
        case _ => false
  {
    var before := Run(hasCookies, Start(), ops).state;
    AddedIs(hasCookies, ops, m);
    if IsHandled(hasCookies, ops, m) && IsNews(m) {
      PlainEvents(before.history, m, before.skipCount > 0, e);
    }
  }

  lemma PlainEvents(history: seq<Dedup.Item>, m: Incoming, isOld: bool, e: Event)
    requires IsNews(m) && !e.MessageEvent? && !e.ConversationEvent?
    ensures e in EventsOf(history, m, isOld) <==> match e
      case AlertEvent => m.update == UserAlert && !isOld
      case TypingEvent => m.update == Typing && !isOld
      case DataReceived => !isOld
      case SettingsEvent => m.update == SettingsUpdate
      case PresenceAck => m.update == BrowserPresenceCheck
      case AccountChangeEvent(isFake) => !isFake && m.update == AccountChange
      case _ => false
  {
  }

  /**
   * What a message leaves behind: a response ends the wait for its id, a handled message counts down the
   * backlog and leaves records of exactly the parts that were told, and nothing else changes but the
   * acknowledgements.
   */
  lemma StateIsExact(hasCookies: bool, ops: seq<Op>, m: Incoming, n: nat)
    requires AreNew(Run(hasCookies, Start(), ops).state.history, m, n)
    ensures var before := Run(hasCookies, Start(), ops);
      var after := Run(hasCookies, Start(), ops + [Block(Data(m))]);
      var handled := IsHandled(hasCookies, ops, m);
      && after.state.awaited == before.state.awaited - (if IsConsumed(hasCookies, ops, m) then {m.sessionID} else {})
      && after.state.skipCount ==
        (if handled && before.state.skipCount > 0 then before.state.skipCount - 1 else before.state.skipCount)
      && after.handled == before.handled + (if handled then [Handled(m, before.state.skipCount > 0)] else [])
      && n <= |PartsOf(m.update)|
      && after.state.history == before.state.history +
        if handled && IsNews(m) && m.contentHash.Some? then Dedup.Items(PartsOf(m.update)[..n], m.contentHash.value) else []
  {
    var before := Run(hasCookies, Start(), ops);
    OneMoreBlock(hasCookies, ops, m);
    PassesNew(before.state.history, m, n);
    assert before.state.history + [] == before.state.history;
    assert Dedup.Items([], 0) == [];
  }
}

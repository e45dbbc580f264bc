/**
 * The RPC session layer (pkg/libgm/session_handler.go): waiters for responses and the queue of
 * acknowledgements. Each section under a lock, and each channel operation, is one atomic step.
 */
module Session {
  import opened Basics

  datatype Message = Message(responseID: string, sessionID: string)

  /** Where the call that made a channel stands: it waits for its HTTP request, returned the channel, or cancelled it. */
  datatype CallPhase = Requesting | Returned | Cancelled

  /** A channel of capacity one. */
  datatype Channel = Channel(requestID: string, buffer: seq<Message>, received: seq<Message>, closed: bool, phase: CallPhase)

  /** A message whose waiter has been taken from the map but that has not been sent on. */
  datatype InFlight = InFlight(ch: nat, msg: Message)

  datatype State = State(
    waiters: map<string, nat>, channels: seq<Channel>, inFlight: seq<InFlight>,
    used: set<string>,   // request ids handed out so far
    raced: set<nat>,     // channels cancelled while a message for them was in flight
    panicked: bool)      // a send hit a closed channel

  const START := State(map[], [], [], {}, {}, false)

  datatype Step =
    | Register(requestID: string)
    | RequestSucceeds(ch: nat)
    | RequestFails(ch: nat)
    | Take(msg: Message)
    | Send(k: nat)
    | Receive(ch: nat)

  predicate Enabled(s: State, step: Step) {
    match step
    case Register(id) => id !in s.used // request ids are fresh
    case RequestSucceeds(ch) => ch < |s.channels| && s.channels[ch].phase == Requesting
    case RequestFails(ch) => ch < |s.channels| && s.channels[ch].phase == Requesting
    case Take(_) => true
    case Send(k) => k < |s.inFlight| && s.inFlight[k].ch < |s.channels| && !Blocks(s, k)
    case Receive(ch) => ch < |s.channels| && s.channels[ch].phase == Returned && s.channels[ch].buffer != []
  }

  /** A send on a full channel would block. */
  predicate Blocks(s: State, k: nat)
    requires k < |s.inFlight| && s.inFlight[k].ch < |s.channels|
  {
    var c := s.channels[s.inFlight[k].ch];
    !c.closed && c.buffer != []
  }

  predicate Panics(s: State, k: nat)
    requires k < |s.inFlight| && s.inFlight[k].ch < |s.channels|
  {
    s.channels[s.inFlight[k].ch].closed
  }

  function Without<T>(s: seq<T>, k: nat): seq<T>
    requires k < |s|
  {
    s[..k] + s[k + 1..]
  }

  function Next(s: State, step: Step): State
    requires Enabled(s, step)
  {
    match step
    case Register(id) =>
      s.(waiters := s.waiters[id := |s.channels|],
         channels := s.channels + [Channel(id, [], [], false, Requesting)],
         used := s.used + {id})
    case RequestSucceeds(ch) => s.(channels := s.channels[ch := s.channels[ch].(phase := Returned)])
    case RequestFails(ch) =>
      s.(channels := s.channels[ch := s.channels[ch].(phase := Cancelled, closed := true)],
         waiters := s.waiters - {s.channels[ch].requestID},
         raced := if exists k :: 0 <= k < |s.inFlight| && s.inFlight[k].ch == ch then s.raced + {ch} else s.raced)
    case Take(msg) =>
      if msg.sessionID in s.waiters then
        s.(waiters := s.waiters - {msg.sessionID},
           inFlight := s.inFlight + [InFlight(s.waiters[msg.sessionID], msg)])
      else s
    case Send(k) =>
      var ch, msg := s.inFlight[k].ch, s.inFlight[k].msg;
      if Panics(s, k) then s.(inFlight := Without(s.inFlight, k), panicked := true)
      else
        s.(inFlight := Without(s.inFlight, k),
           channels := s.channels[ch := s.channels[ch].(buffer := s.channels[ch].buffer + [msg])])
    case Receive(ch) =>
      var c := s.channels[ch];
      s.(channels := s.channels[ch := c.(buffer := c.buffer[1..], received := c.received + [c.buffer[0]])])
  }

  /** A run: steps that are not possible when their turn comes do nothing. */
  function After(steps: seq<Step>): State {
    if steps == [] then START
    else
      var s, step := After(steps[..|steps| - 1]), steps[|steps| - 1];
      if Enabled(s, step) then Next(s, step) else s
  }

  // ----- What holds in every reachable state -----

  ghost predicate ChannelOk(c: Channel) {
    && |c.buffer| + |c.received| <= 1
    && (forall m :: m in c.buffer || m in c.received ==> m.sessionID == c.requestID)
    && (c.closed <==> c.phase == Cancelled)
  }

  ghost predicate Untouched(c: Channel) {
    c.buffer == [] && c.received == []
  }

  ghost predicate ChannelsOk(s: State) {
    && (forall i :: 0 <= i < |s.channels| ==> ChannelOk(s.channels[i]) && s.channels[i].requestID in s.used)
    && (forall i, j :: 0 <= i < j < |s.channels| ==> s.channels[i].requestID != s.channels[j].requestID)
  }

  ghost predicate WaitersOk(s: State) {
    forall id :: id in s.waiters ==>
      && s.waiters[id] < |s.channels|
      && s.channels[s.waiters[id]].requestID == id
      && Untouched(s.channels[s.waiters[id]])
      && !s.channels[s.waiters[id]].closed
  }

  ghost predicate InFlightOk(s: State) {
    && (forall k :: 0 <= k < |s.inFlight| ==> Flying(s, s.inFlight[k]))
    && (forall k, l :: 0 <= k < l < |s.inFlight| ==> s.inFlight[k].ch != s.inFlight[l].ch)
  }

  ghost predicate Flying(s: State, f: InFlight) {
    && f.ch < |s.channels|
    && f.msg.sessionID == s.channels[f.ch].requestID
    && f.msg.sessionID !in s.waiters
    && Untouched(s.channels[f.ch])
    && (s.channels[f.ch].closed <==> f.ch in s.raced)
  }

  /** Somebody waits on channel ch, and nothing has been done about it yet. */
  ghost predicate Awaited(s: State, ch: nat)
    requires ch < |s.channels|
  {
    && !s.channels[ch].closed
    && Untouched(s.channels[ch])
    && forall k :: 0 <= k < |s.inFlight| ==> s.inFlight[k].ch != ch
  }

  ghost predicate AwaitedOk(s: State) {
    forall ch :: 0 <= ch < |s.channels| && Awaited(s, ch) ==>
      s.channels[ch].requestID in s.waiters && s.waiters[s.channels[ch].requestID] == ch
  }

  ghost predicate Inv(s: State) {
    && ChannelsOk(s) && WaitersOk(s) && InFlightOk(s) && AwaitedOk(s)
    && (forall ch :: ch in s.raced ==> ch < |s.channels| && s.channels[ch].closed)
    && (s.panicked ==> s.raced != {})
  }

  lemma RegisterKeeps(s: State, id: string)
    requires Inv(s) && Enabled(s, Register(id))
    ensures Inv(Next(s, Register(id)))
  {
    var s' := Next(s, Register(id));
    forall k | 0 <= k < |s'.inFlight|
      ensures Flying(s', s'.inFlight[k])
    {
      assert Flying(s, s.inFlight[k]);
    }
  }

  lemma RequestSucceedsKeeps(s: State, ch: nat)
    requires Inv(s) && Enabled(s, RequestSucceeds(ch))
    ensures Inv(Next(s, RequestSucceeds(ch)))
  {
    var s' := Next(s, RequestSucceeds(ch));
    forall k | 0 <= k < |s'.inFlight|
      ensures Flying(s', s'.inFlight[k])
    {
      assert Flying(s, s.inFlight[k]);
    }
  }

  lemma RequestFailsKeeps(s: State, ch: nat)
    requires Inv(s) && Enabled(s, RequestFails(ch))
    ensures Inv(Next(s, RequestFails(ch)))
  {
    var s' := Next(s, RequestFails(ch));
    forall k | 0 <= k < |s'.inFlight|
      ensures Flying(s', s'.inFlight[k])
    {
      assert Flying(s, s.inFlight[k]);
    }
    forall id | id in s'.waiters
      ensures s'.waiters[id] != ch
    {
      assert id != s.channels[ch].requestID;
    }
  }

  lemma TakeKeeps(s: State, msg: Message)
    requires Inv(s)
    ensures Inv(Next(s, Take(msg)))
  {
    var s' := Next(s, Take(msg));
    if msg.sessionID in s.waiters {
      var ch := s.waiters[msg.sessionID];
      forall k | 0 <= k < |s.inFlight|
        ensures s.inFlight[k].ch != ch && Flying(s', s'.inFlight[k])
      {
        assert Flying(s, s.inFlight[k]);
      }
      assert Flying(s', s'.inFlight[|s.inFlight|]);
    }
  }

  lemma SendKeeps(s: State, k: nat)
    requires Inv(s) && Enabled(s, Send(k))
    ensures Inv(Next(s, Send(k)))
  {
    var s' := Next(s, Send(k));
    assert Flying(s, s.inFlight[k]);
    SendKeepsInFlight(s, k);
    SendKeepsAwaited(s, k);
    forall id | id in s'.waiters
      ensures s'.waiters[id] != s.inFlight[k].ch
    {
      assert id != s.inFlight[k].msg.sessionID;
    }
  }

  lemma SendKeepsInFlight(s: State, k: nat)
    requires Inv(s) && Enabled(s, Send(k))
    ensures InFlightOk(Next(s, Send(k)))
  {
    var s' := Next(s, Send(k));
    assert Flying(s, s.inFlight[k]);
    forall l | 0 <= l < |s'.inFlight|
      ensures s'.inFlight[l].ch != s.inFlight[k].ch && Flying(s', s'.inFlight[l])
    {
      var m := if l < k then l else l + 1;
      assert s'.inFlight[l] == s.inFlight[m] && Flying(s, s.inFlight[m]);
    }
  }

  lemma SendKeepsAwaited(s: State, k: nat)
    requires Inv(s) && Enabled(s, Send(k))
    ensures AwaitedOk(Next(s, Send(k)))
  {
    var s' := Next(s, Send(k));
    assert Flying(s, s.inFlight[k]);
    forall ch | 0 <= ch < |s'.channels| && Awaited(s', ch)
      ensures s'.channels[ch].requestID in s'.waiters && s'.waiters[s'.channels[ch].requestID] == ch
    {
      assert ch != s.inFlight[k].ch;
      forall l | 0 <= l < |s.inFlight|
        ensures s.inFlight[l].ch != ch
      {
        if l != k {
          assert s.inFlight[l] == s'.inFlight[if l < k then l else l - 1];
        }
      }
      assert Awaited(s, ch);
    }
  }

  lemma ReceiveKeeps(s: State, ch: nat)
    requires Inv(s) && Enabled(s, Receive(ch))
    ensures Inv(Next(s, Receive(ch)))
  {
    var s' := Next(s, Receive(ch));
    assert ChannelOk(s.channels[ch]);
    forall k | 0 <= k < |s'.inFlight|
      ensures Flying(s', s'.inFlight[k])
    {
      assert Flying(s, s.inFlight[k]);
    }
  }

  lemma {:induction false} RunKeeps(steps: seq<Step>)
    ensures Inv(After(steps))
  {
    if steps != [] {
      var before, step := After(steps[..|steps| - 1]), steps[|steps| - 1];
      RunKeeps(steps[..|steps| - 1]);
      if Enabled(before, step) {
        match step
        case Register(id) => RegisterKeeps(before, id);
        case RequestSucceeds(ch) => RequestSucceedsKeeps(before, ch);
        case RequestFails(ch) => RequestFailsKeeps(before, ch);
        case Take(msg) => TakeKeeps(before, msg);
        case Send(k) => SendKeeps(before, k);
        case Receive(ch) => ReceiveKeeps(before, ch);
      }
    }
  }

  // ----- The promises, for every interleaving -----

  /** A caller gets at most one message, and it answers the caller's own request. */
  lemma AtMostOneResponse(steps: seq<Step>, ch: nat)
    requires ch < |After(steps).channels|
    ensures var c := After(steps).channels[ch];
      |c.received| <= 1 && (forall m :: m in c.received ==> m.sessionID == c.requestID)
  {
    RunKeeps(steps);
    assert ChannelOk(After(steps).channels[ch]);
  }

  /** The send never blocks, and it panics exactly when a cancel fell between the take and the send. */
  lemma SendPanicsOnlyInTheRace(steps: seq<Step>, k: nat)
    requires k < |After(steps).inFlight|
    ensures var s := After(steps);
      && s.inFlight[k].ch < |s.channels|
      && !Blocks(s, k)
      && (Panics(s, k) <==> s.inFlight[k].ch in s.raced)
  {
    RunKeeps(steps);
    assert Flying(After(steps), After(steps).inFlight[k]);
  }

  /** Without that race nothing ever panics; with it, something can. */
  lemma RaceIsTheOnlyPanic(steps: seq<Step>, id: string, answer: string)
    ensures After(steps).raced == {} ==> !After(steps).panicked
    ensures var m := Message(answer, id);
      After([Register(id), Take(m), RequestFails(0), Send(0)]).panicked
  {
    RunKeeps(steps);
    var m := Message(answer, id);
    var run := [Register(id), Take(m), RequestFails(0), Send(0)];
    assert run[..3][..2] == run[..2] && run[..2][..1] == run[..1] && run[..1][..0] == [];
    assert After(run[..1]) == Next(START, Register(id));
    assert After(run[..2]) == Next(After(run[..1]), Take(m));
    assert After(run[..2]).inFlight == [InFlight(0, m)];
    var taken := After(run[..2]);
    assert taken.inFlight[0].ch == 0;
    assert After(run[..3]) == Next(taken, RequestFails(0));
    assert After(run) == Next(After(run[..3]), Send(0));
  }

  /**
   * A message is consumed as a response exactly when somebody registered for its request, has not
   * cancelled, and no response for it has been taken yet.
   */
  lemma ConsumedMeansAwaited(steps: seq<Step>, msg: Message)
    ensures var s := After(steps);
      msg.sessionID in s.waiters <==>
        exists ch :: 0 <= ch < |s.channels| && s.channels[ch].requestID == msg.sessionID && Awaited(s, ch)
  {
    RunKeeps(steps);
    var s := After(steps);
    if msg.sessionID in s.waiters {
      var ch := s.waiters[msg.sessionID];
      forall k | 0 <= k < |s.inFlight|
        ensures s.inFlight[k].ch != ch
      {
        assert Flying(s, s.inFlight[k]);
      }
    }
  }

  lemma StepAfter(steps: seq<Step>, step: Step)
    ensures After(steps + [step]) == if Enabled(After(steps), step) then Next(After(steps), step) else After(steps)
  {
    assert (steps + [step])[..|steps|] == steps;
  }

  /**
   * A message for somebody who waits does arrive: once it is taken, sent and received, the caller has got
   * exactly this message, and nothing has panicked that had not before. A message that nobody waits for
   * changes nothing.
   */
  lemma ResponseArrives(steps: seq<Step>, ch: nat, msg: Message)
    requires ch < |After(steps).channels| && After(steps).channels[ch].requestID == msg.sessionID
    ensures var s := After(steps);
      var s' := After(steps + [Take(msg)] + [Send(|s.inFlight|)] + [Receive(ch)]);
      Awaited(s, ch) && s.channels[ch].phase == Returned ==>
        && ch < |s'.channels| && s'.channels[ch].received == [msg]
        && s'.panicked == s.panicked && msg.sessionID !in s'.waiters
    ensures !Awaited(After(steps), ch) ==> After(steps + [Take(msg)]) == After(steps)
  {
    var s := After(steps);
    RunKeeps(steps);
    ConsumedMeansAwaited(steps, msg);
    StepAfter(steps, Take(msg));
    if Awaited(s, ch) && s.channels[ch].phase == Returned {
      var taken := Next(s, Take(msg));
      assert taken.inFlight[|s.inFlight|] == InFlight(ch, msg);
      StepAfter(steps + [Take(msg)], Send(|s.inFlight|));
      StepAfter(steps + [Take(msg)] + [Send(|s.inFlight|)], Receive(ch));
      SentIsReceived(taken, |s.inFlight|, ch, msg);
    }
  }

  lemma SentIsReceived(taken: State, k: nat, ch: nat, msg: Message)
    requires k < |taken.inFlight| && taken.inFlight[k] == InFlight(ch, msg) && ch < |taken.channels|
    requires Untouched(taken.channels[ch]) && !taken.channels[ch].closed && taken.channels[ch].phase == Returned
    ensures Enabled(taken, Send(k)) && Enabled(Next(taken, Send(k)), Receive(ch))
    ensures var s' := Next(Next(taken, Send(k)), Receive(ch));
      && |s'.channels| == |taken.channels| && s'.channels[ch].received == [msg]
      && s'.panicked == taken.panicked && s'.waiters == taken.waiters
  {
  }

  // ----- The handler -----

  class SessionHandler {
    var responseWaiters: map<string, nat>
    var channels: seq<Channel>
    var inFlight: seq<InFlight>
    var panicked: bool
    var ackMap: seq<string>
    ghost var used: set<string>
    ghost var raced: set<nat>

    ghost function View(): State
      reads this
    {
      State(responseWaiters, channels, inFlight, used, raced, panicked)
    }

    constructor ()
      ensures View() == START && ackMap == []
    {
      responseWaiters, channels, inFlight, panicked, ackMap := map[], [], [], false, [];
      used, raced := {}, {};
    }

    method WaitResponse(requestID: string) returns (ch: nat)
      requires requestID !in used
      modifies this
      ensures View() == Next(old(View()), Register(requestID)) && ackMap == old(ackMap)
      ensures ch == |old(channels)|
    {
      ch := |channels|;
      channels := channels + [Channel(requestID, [], [], false, Requesting)];
      responseWaiters := responseWaiters[requestID := ch];
      used := used + {requestID};
    }

    method CancelResponse(requestID: string, ch: nat)
      requires Enabled(View(), RequestFails(ch)) && channels[ch].requestID == requestID
      modifies this
      ensures View() == Next(old(View()), RequestFails(ch)) && ackMap == old(ackMap)
    {
      raced := if exists k :: 0 <= k < |inFlight| && inFlight[k].ch == ch then raced + {ch} else raced;
      channels := channels[ch := channels[ch].(phase := Cancelled, closed := true)];
      responseWaiters := responseWaiters - {requestID};
    }

    /** sendAsyncMessage with nothing in between; fails says whether the HTTP request failed. */
    method SendAsyncMessage(requestID: string, fails: bool) returns (ch: Option<nat>)
      requires requestID !in used
      modifies this
      ensures var registered := Next(old(View()), Register(requestID));
        && ch == (if fails then None else Some(|old(channels)|))
        && View() == Next(registered, if fails then RequestFails(|old(channels)|) else RequestSucceeds(|old(channels)|))
    {
      var c := WaitResponse(requestID);
      if fails {
        CancelResponse(requestID, c);
        return None;
      }
      channels := channels[c := channels[c].(phase := Returned)];
      return Some(c);
    }

    /** The locked part of receiveResponse. */
    method TakeWaiter(msg: Message) returns (taken: bool)
      modifies this
      ensures View() == Next(old(View()), Take(msg)) && ackMap == old(ackMap)
      ensures taken <==> msg.sessionID in old(responseWaiters)
    {
      if msg.sessionID !in responseWaiters {
        return false;
      }
      inFlight := inFlight + [InFlight(responseWaiters[msg.sessionID], msg)];
      responseWaiters := responseWaiters - {msg.sessionID};
      return true;
    }

    /** The channel send at the end of receiveResponse. */
    method SendTaken(k: nat)
      requires Enabled(View(), Send(k))
      modifies this
      ensures View() == Next(old(View()), Send(k)) && ackMap == old(ackMap)
    {
      var ch, msg := inFlight[k].ch, inFlight[k].msg;
      inFlight := Without(inFlight, k);
      if channels[ch].closed {
        panicked := true;
      } else {
        channels := channels[ch := channels[ch].(buffer := channels[ch].buffer + [msg])];
      }
    }

    /** receiveResponse with nothing in between. */
    method ReceiveResponse(msg: Message) returns (consumed: bool)
      requires Inv(View())
      modifies this
      ensures Inv(View()) && ackMap == old(ackMap)
      ensures consumed <==> msg.sessionID in old(responseWaiters)
      ensures responseWaiters == old(responseWaiters) - {msg.sessionID}
      ensures consumed ==> var ch := old(responseWaiters)[msg.sessionID];
        ch < |channels| && channels[ch].buffer == [msg]
    {
      TakeKeeps(View(), msg);
      consumed := TakeWaiter(msg);
      if consumed {
        var k := |inFlight| - 1;
        assert Flying(View(), inFlight[k]);
        SendKeeps(View(), k);
        SendTaken(k);
      }
    }

    method QueueMessageAck(messageID: string)
      modifies this`ackMap
      ensures ackMap == AckNext(AckState(old(ackMap), []), Queue(messageID)).pending
    {
      if messageID !in ackMap {
        ackMap := ackMap + [messageID];
      }
    }

    method SendAckRequest() returns (dataToAck: seq<string>)
      modifies this`ackMap
      ensures dataToAck == old(ackMap)
      ensures forall batches ::
        AckState(ackMap, if dataToAck == [] then batches else batches + [dataToAck])
          == AckNext(AckState(old(ackMap), batches), TakeBatch)
    {
      dataToAck := ackMap;
      ackMap := [];
    }
  }

  // ----- Acknowledgements -----

  datatype AckOp = Queue(id: string) | TakeBatch

  datatype AckState = AckState(pending: seq<string>, batches: seq<seq<string>>)

  function AckNext(s: AckState, op: AckOp): AckState {
    match op
    case Queue(id) => if id in s.pending then s else s.(pending := s.pending + [id])
    case TakeBatch => if s.pending == [] then s else AckState([], s.batches + [s.pending])
  }

  function AckAfter(ops: seq<AckOp>): AckState {
    if ops == [] then AckState([], [])
    else AckNext(AckAfter(ops[..|ops| - 1]), ops[|ops| - 1])
  }

  /** The ids queued since the last batch was taken. */
  function SinceBatch(ops: seq<AckOp>): seq<string> {
    if ops == [] then []
    else match ops[|ops| - 1]
      case Queue(id) => SinceBatch(ops[..|ops| - 1]) + [id]
      case TakeBatch => []
  }

  /** The first occurrence of every element, in order. */
  function Distinct(s: seq<string>): seq<string> {
    if s == [] then []
    else
      var before := Distinct(s[..|s| - 1]);
      if s[|s| - 1] in before then before else before + [s[|s| - 1]]
  }

  lemma {:induction false} DistinctKeepsAll(s: seq<string>)
    ensures NoDuplicates(Distinct(s))
    ensures forall x :: x in Distinct(s) <==> x in s
  {
    if s != [] {
      var before := s[..|s| - 1];
      assert s == before + [s[|s| - 1]];
      DistinctKeepsAll(before);
    }
  }

  /** What waits to be acknowledged is what was queued since the last batch, each id once, in order of first arrival. */
  lemma {:induction false} PendingIsDistinct(ops: seq<AckOp>)
    ensures AckAfter(ops).pending == Distinct(SinceBatch(ops)) && NoDuplicates(AckAfter(ops).pending)
  {
    if ops != [] {
      PendingIsDistinct(ops[..|ops| - 1]);
      var since := SinceBatch(ops[..|ops| - 1]);
      if ops[|ops| - 1].Queue? {
        assert (since + [ops[|ops| - 1].id])[..|since|] == since;
      }
    }
    DistinctKeepsAll(SinceBatch(ops));
  }

  ghost predicate Holds(s: AckState, id: string) {
    id in s.pending || exists i :: 0 <= i < |s.batches| && id in s.batches[i]
  }

  /** No batch repeats an id, and pending and batches together hold exactly the ids ever queued. */
  lemma {:induction false} AcksAreConserved(ops: seq<AckOp>, id: string)
    ensures forall i :: 0 <= i < |AckAfter(ops).batches| ==> NoDuplicates(AckAfter(ops).batches[i])
    ensures Holds(AckAfter(ops), id) <==> Queue(id) in ops
  {
    if ops != [] {
      var before, op := ops[..|ops| - 1], ops[|ops| - 1];
      assert ops == before + [op];
      AcksAreConserved(before, id);
      PendingIsDistinct(before);
      var s, s' := AckAfter(before), AckAfter(ops);
      if op == TakeBatch && s.pending != [] {
        assert s'.batches[|s.batches|] == s.pending;
        assert forall i :: 0 <= i < |s.batches| ==> s'.batches[i] == s.batches[i];
      }
    }
  }
}

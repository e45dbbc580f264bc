/**
 * The delayed backfill of one conversation (syncConversation in pkg/connector/chatsync.go): every call
 * swaps its cancel function into a slot, invokes the one it took out, and starts a goroutine that waits
 * fifteen seconds before it queues. Calls run at once; each step below is atomic. Times are microseconds.
 */
module DelayedBackfill {
  import opened Basics

  const DELAY := 15_000_000

  /** Where the call stands; previous is the backfill whose cancel function the call took out. */
  datatype Progress = Begun | Swapped(previous: Option<nat>) | PastCancel | Returned

  /**
   * The backfill's goroutine: its timer is armed when the select's channels are evaluated, then it
   * waits in the select, leaves it through one of the channels, and queues if that was the timer.
   */
  datatype Goroutine =
    | NotStarted | Started
    | Armed(deadline: int) | Waiting(deadline: int)
    | Cancelled
    | Fired(deadline: int, at: int) | Queued(deadline: int, at: int)

  datatype Call = Call(progress: Progress, goroutine: Goroutine, cancelled: bool)

  /** Backfills are numbered by their calls; slot is cancelPendingBackfill. */
  datatype State = State(now: int, calls: seq<Call>, slot: Option<nat>)

  const INITIAL := State(0, [], None)

  /** timerWins says which channel the select takes when it finds both of them ready. */
  datatype Step =
    | Advance(time: nat)
    | Begin | Swap(k: nat) | CancelPrevious(k: nat) | Spawn(k: nat)
    | Arm(k: nat) | Select(k: nat, timerWins: bool) | TimerFires(k: nat) | Queue(k: nat)

  /** A goroutine parked in the select wakes up when it is cancelled. */
  function Cancel(c: Call): Call {
    c.(cancelled := true, goroutine := if c.goroutine.Waiting? then Cancelled else c.goroutine)
  }

  predicate Enabled(s: State, step: Step) {
    match step
    case Advance(_) => true
    case Begin => true
    case Swap(k) => k < |s.calls| && s.calls[k].progress.Begun?
    case CancelPrevious(k) =>
      && k < |s.calls| && s.calls[k].progress.Swapped?
      && (s.calls[k].progress.previous.Some? ==> s.calls[k].progress.previous.value < |s.calls|)
    case Spawn(k) => k < |s.calls| && s.calls[k].progress.PastCancel?
    case Arm(k) => k < |s.calls| && s.calls[k].goroutine.Started?
    case Select(k, _) => k < |s.calls| && s.calls[k].goroutine.Armed?
    case TimerFires(k) => k < |s.calls| && s.calls[k].goroutine.Waiting? && s.now >= s.calls[k].goroutine.deadline
    case Queue(k) => k < |s.calls| && s.calls[k].goroutine.Fired?
  }

  function Selected(c: Call, now: int, timerWins: bool): Goroutine
    requires c.goroutine.Armed?
  {
    var deadline := c.goroutine.deadline;
    if now >= deadline && (timerWins || !c.cancelled) then Fired(deadline, now)
    else if c.cancelled then Cancelled
    else Waiting(deadline)
  }

  function SetGoroutine(s: State, k: nat, g: Goroutine): State
    requires k < |s.calls|
  {
    s.(calls := s.calls[k := s.calls[k].(goroutine := g)])
  }

  function Apply(s: State, step: Step): State
    requires Enabled(s, step)
  {
    match step
    case Advance(time) => s.(now := s.now + time)
    case Begin => s.(calls := s.calls + [Call(Begun, NotStarted, false)])
    case Swap(k) =>
      s.(calls := s.calls[k := s.calls[k].(progress := Swapped(s.slot))], slot := Some(k))
    case CancelPrevious(k) =>
      var calls := match s.calls[k].progress.previous
        case None => s.calls
        case Some(j) => s.calls[j := Cancel(s.calls[j])];
      s.(calls := calls[k := calls[k].(progress := PastCancel)])
    case Spawn(k) => s.(calls := s.calls[k := s.calls[k].(progress := Returned, goroutine := Started)])
    case Arm(k) => SetGoroutine(s, k, Armed(s.now + DELAY))
    case Select(k, timerWins) => SetGoroutine(s, k, Selected(s.calls[k], s.now, timerWins))
    case TimerFires(k) => SetGoroutine(s, k, Fired(s.calls[k].goroutine.deadline, s.now))
    case Queue(k) => SetGoroutine(s, k, Queued(s.calls[k].goroutine.deadline, s.now))
  }

  /** Steps that are not enabled do nothing. */
  function Next(s: State, step: Step): State {
    if Enabled(s, step) then Apply(s, step) else s
  }

  function After(s: State, steps: seq<Step>): State
    decreases |steps|
  {
    if steps == [] then s else After(Next(s, steps[0]), steps[1..])
  }

  // ----- The invariant -----

  /** The goroutine has left the select through the timer: it will queue, or has. */
  predicate HasFired(s: State, k: nat) {
    k < |s.calls| && (s.calls[k].goroutine.Fired? || s.calls[k].goroutine.Queued?)
  }

  predicate IsQueued(s: State, k: nat) {
    k < |s.calls| && s.calls[k].goroutine.Queued?
  }

  /** The backfill has its cancel function, was not cancelled, and has not left the select. */
  predicate Live(s: State, k: nat) {
    k < |s.calls| && Cancellable(s.calls[k]) && !s.calls[k].goroutine.Cancelled? && !HasFired(s, k)
  }

  /** Call j is about to invoke the cancel function of backfill k. */
  predicate Holds(s: State, j: nat, k: nat) {
    j < |s.calls| && s.calls[j].progress == Swapped(Some(k))
  }

  ghost predicate Held(s: State, k: nat) {
    exists j: nat :: Holds(s, j, k)
  }

  predicate Cancellable(c: Call) {
    !c.progress.Begun? && !c.cancelled
  }

  predicate CallIsSound(c: Call, now: int) {
    && (c.goroutine.NotStarted? <==> !c.progress.Returned?)
    && (c.cancelled ==> !c.goroutine.Waiting? && !c.progress.Begun?)
    && (c.goroutine.Cancelled? ==> c.cancelled)
    && (c.goroutine.Fired? || c.goroutine.Queued? ==> c.goroutine.deadline <= c.goroutine.at <= now)
  }

  ghost predicate Inv(s: State) {
    && (forall k :: 0 <= k < |s.calls| ==> CallIsSound(s.calls[k], s.now))
    && (forall k: nat :: Live(s, k) ==> s.slot == Some(k) || Held(s, k))
    && (s.slot.Some? ==> s.slot.value < |s.calls| && Cancellable(s.calls[s.slot.value]))
    && (forall j: nat, k: nat :: Holds(s, j, k) ==> k < |s.calls| && Cancellable(s.calls[k]) && s.slot != Some(k))
    && (forall i: nat, j: nat, k: nat :: Holds(s, i, k) && Holds(s, j, k) ==> i == j)
  }

  lemma InvIsKept(s: State, step: Step)
    requires Inv(s)
    ensures Inv(Next(s, step))
  {
    if Enabled(s, step) {
      match step
      case Begin =>
        KeptByBegin(s);
      case Swap(k) =>
        KeptBySwap(s, k);
      case CancelPrevious(k) =>
        KeptByCancel(s, k);
      case _ =>
        KeptByGoroutine(s, step);
    }
  }

  lemma KeptByBegin(s: State)
    requires Inv(s)
    ensures Inv(Next(s, Begin))
  {
    var s' := Next(s, Begin);
    assert forall j: nat, k: nat :: Holds(s', j, k) <==> Holds(s, j, k);
    forall k: nat | Live(s', k)
      ensures s'.slot == Some(k) || Held(s', k)
    {
      assert Live(s, k);
      if j: nat :| Holds(s, j, k) {
        assert Holds(s', j, k);
      }
    }
  }

  lemma KeptBySwap(s: State, k: nat)
    requires Inv(s) && Enabled(s, Swap(k))
    ensures Inv(Next(s, Swap(k)))
  {
    var s' := Next(s, Swap(k));
    assert forall i: nat, j: nat :: Holds(s', i, j) <==> Holds(s, i, j) || (i == k && s.slot == Some(j));
    forall j: nat | Live(s', j)
      ensures s'.slot == Some(j) || Held(s', j)
    {
      if j != k {
        assert Live(s, j);
        if i: nat :| Holds(s, i, j) {
          assert Holds(s', i, j);
        } else {
          assert Holds(s', k, j);
        }
      }
    }
  }

  lemma KeptByCancel(s: State, k: nat)
    requires Inv(s) && Enabled(s, CancelPrevious(k))
    ensures Inv(Next(s, CancelPrevious(k)))
  {
    var s' := Next(s, CancelPrevious(k));
    var previous := s.calls[k].progress.previous;
    if previous.Some? {
      assert Holds(s, k, previous.value);
    }
    assert forall i: nat, j: nat :: Holds(s', i, j) <==> Holds(s, i, j) && i != k;
    forall j: nat | Live(s', j)
      ensures s'.slot == Some(j) || Held(s', j)
    {
      assert Live(s, j) && !Holds(s, k, j);
      if i: nat :| Holds(s, i, j) {
        assert Holds(s', i, j);
      }
    }
  }

  lemma KeptByGoroutine(s: State, step: Step)
    requires Inv(s) && Enabled(s, step) && !step.Begin? && !step.Swap? && !step.CancelPrevious?
    ensures Inv(Next(s, step))
  {
    var s' := Next(s, step);
    assert forall i: nat, j: nat :: Holds(s', i, j) <==> Holds(s, i, j);
    forall j: nat | Live(s', j)
      ensures s'.slot == Some(j) || Held(s', j)
    {
      assert Live(s, j);
      if i: nat :| Holds(s, i, j) {
        assert Holds(s', i, j);
      }
    }
  }

  lemma {:induction false} RunKeepsInv(s: State, steps: seq<Step>)
    requires Inv(s)
    ensures Inv(After(s, steps))
    decreases |steps|
  {
    if steps != [] {
      InvIsKept(s, steps[0]);
      RunKeepsInv(Next(s, steps[0]), steps[1..]);
    }
  }

  // ----- Who can be cancelled -----

  /** No call stands between its swap and the end of its cancelling. */
  predicate Quiescent(s: State) {
    forall k :: 0 <= k < |s.calls| ==> s.calls[k].progress.Swapped? ==> s.calls[k].progress.previous.None?
  }

  /**
   * In every interleaving each live backfill is in the slot, or exactly one call is about to cancel it;
   * when no call is about to cancel anything, only the one in the slot is live.
   */
  lemma LiveIsReachable(steps: seq<Step>, k: nat)
    requires Live(After(INITIAL, steps), k)
    ensures var s := After(INITIAL, steps);
      && (s.slot == Some(k) <==> !Held(s, k))
      && (forall i: nat, j: nat :: Holds(s, i, k) && Holds(s, j, k) ==> i == j)
      && (Quiescent(s) ==> s.slot == Some(k))
  {
    RunKeepsInv(INITIAL, steps);
  }

  // ----- What a cancel decides -----

  /** A backfill that has fired stays so, and is queued at most once. */
  lemma {:induction false} FiredIsFinal(s: State, steps: seq<Step>, k: nat)
    requires Inv(s) && HasFired(s, k)
    ensures HasFired(After(s, steps), k)
    ensures IsQueued(s, k) ==> IsQueued(After(s, steps), k) && After(s, steps).calls[k].goroutine == s.calls[k].goroutine
    decreases |steps|
  {
    if steps != [] {
      InvIsKept(s, steps[0]);
      FiredIsFinal(Next(s, steps[0]), steps[1..], k);
    }
  }

  lemma {:induction false} CancelledStays(s: State, steps: seq<Step>, k: nat)
    requires Inv(s) && k < |s.calls| && s.calls[k].goroutine.Cancelled?
    ensures k < |After(s, steps).calls| && After(s, steps).calls[k].goroutine.Cancelled?
    decreases |steps|
  {
    if steps != [] {
      InvIsKept(s, steps[0]);
      CancelledStays(Next(s, steps[0]), steps[1..], k);
    }
  }

  predicate NoSwap(steps: seq<Step>) {
    forall i :: 0 <= i < |steps| ==> !steps[i].Swap?
  }

  predicate QueuedAfter(s: State, later: seq<Step>, k: nat) {
    IsQueued(After(s, later), k)
  }

  /** How far the backfill is from being queued. */
  function Distance(c: Call): nat {
    match c.goroutine
    case NotStarted => if c.progress.PastCancel? then 6 else 7
    case Started => 5
    case Armed(_) => 4
    case Waiting(_) => 3
    case Cancelled => 2
    case Fired(_, _) => 1
    case Queued(_, _) => 0
  }

  /** The next step on the way of a backfill, once enough time has passed. */
  function Onward(c: Call, k: nat): Step {
    match c.goroutine
    case NotStarted => if c.progress.Swapped? then CancelPrevious(k) else Spawn(k)
    case Started => Arm(k)
    case Armed(_) => Select(k, true)
    case Waiting(_) => TimerFires(k)
    case _ => Queue(k)
  }

  function TimeTo(c: Call, now: int): nat {
    match c.goroutine
    case Armed(deadline) => Max(0, deadline - now)
    case Waiting(deadline) => Max(0, deadline - now)
    case _ => 0
  }

  predicate OnItsWay(s: State, k: nat) {
    k < |s.calls| && !s.calls[k].progress.Begun? && !s.calls[k].goroutine.Cancelled?
  }

  lemma OneStepOnward(s: State, k: nat)
    requires Inv(s) && OnItsWay(s, k) && !IsQueued(s, k)
    ensures var later := Next(s, Advance(TimeTo(s.calls[k], s.now)));
      var next := Next(later, Onward(s.calls[k], k));
      && Inv(next) && OnItsWay(next, k) && Distance(next.calls[k]) < Distance(s.calls[k])
  {
    var later := Next(s, Advance(TimeTo(s.calls[k], s.now)));
    if s.calls[k].progress.Swapped? && s.calls[k].progress.previous.Some? {
      assert Holds(s, k, s.calls[k].progress.previous.value);
    }
    InvIsKept(s, Advance(TimeTo(s.calls[k], s.now)));
    InvIsKept(later, Onward(s.calls[k], k));
  }

  /** A backfill that is on its way can come to be queued, even without another swap. */
  lemma {:induction false} OnwardQueues(s: State, k: nat) returns (later: seq<Step>)
    requires Inv(s) && OnItsWay(s, k)
    ensures QueuedAfter(s, later, k) && NoSwap(later)
    decreases Distance(s.calls[k])
  {
    if IsQueued(s, k) {
      later := [];
    } else {
      var wait, step := Advance(TimeTo(s.calls[k], s.now)), Onward(s.calls[k], k);
      OneStepOnward(s, k);
      var rest := OnwardQueues(Next(Next(s, wait), step), k);
      later := [wait] + ([step] + rest);
      AfterStep(s, wait, [step] + rest);
      AfterStep(Next(s, wait), step, rest);
    }
  }

  /**
   * A cancel stops a backfill exactly if it finds the goroutine parked in the select: then nothing is
   * queued in any continuation, and in every other state there is one that queues.
   */
  lemma CancelDecides(before: seq<Step>, j: nat, k: nat)
    requires Holds(After(INITIAL, before), j, k)
    ensures var s := After(INITIAL, before);
      && k < |s.calls|
      && ((exists later :: QueuedAfter(Next(s, CancelPrevious(j)), later, k)) <==> !s.calls[k].goroutine.Waiting?)
  {
    var s := After(INITIAL, before);
    var s' := Next(s, CancelPrevious(j));
    RunKeepsInv(INITIAL, before);
    InvIsKept(s, CancelPrevious(j));
    if s.calls[k].goroutine.Waiting? {
      forall later
        ensures !QueuedAfter(s', later, k)
      {
        CancelledStays(s', later, k);
      }
    } else {
      var later := OnwardQueues(s', k);
    }
  }

  // ----- Goroutines that are not held up -----

  /** The goroutine of backfill k reaches the select before the timer that it armed runs out. */
  predicate Prompt(s: State, steps: seq<Step>, k: nat)
    decreases |steps|
  {
    steps == [] || (IsPrompt(s, steps[0], k) && Prompt(Next(s, steps[0]), steps[1..], k))
  }

  predicate IsPrompt(s: State, step: Step, k: nat) {
    step.Select? && step.k == k && Enabled(s, step) ==> s.now < s.calls[k].goroutine.deadline
  }

  lemma CancelledStep(s: State, step: Step, k: nat)
    requires Inv(s) && k < |s.calls| && s.calls[k].cancelled && IsPrompt(s, step, k)
    ensures k < |Next(s, step).calls| && Next(s, step).calls[k].cancelled
    ensures HasFired(Next(s, step), k) <==> HasFired(s, k)
  {
  }

  /** If it is not held up, a cancelled backfill has fired exactly if it had fired before. */
  lemma {:induction false} CancelledIsFinal(s: State, steps: seq<Step>, k: nat)
    requires Inv(s) && k < |s.calls| && s.calls[k].cancelled && Prompt(s, steps, k)
    ensures HasFired(After(s, steps), k) <==> HasFired(s, k)
    decreases |steps|
  {
    if steps != [] {
      InvIsKept(s, steps[0]);
      CancelledStep(s, steps[0], k);
      CancelledIsFinal(Next(s, steps[0]), steps[1..], k);
    }
  }

  predicate QueuedPromptly(s: State, later: seq<Step>, k: nat) {
    Prompt(s, later, k) && IsQueued(After(s, later), k)
  }

  /**
   * If its goroutine is not held up, a cancelled backfill can still come to be queued if and only if
   * it had left the select through the timer before; then the goroutine's next step queues it.
   */
  lemma PromptCancelDecides(before: seq<Step>, j: nat, k: nat)
    requires Holds(After(INITIAL, before), j, k)
    ensures var s := After(INITIAL, before);
      (exists later :: QueuedPromptly(Next(s, CancelPrevious(j)), later, k)) <==> HasFired(s, k)
  {
    var s := After(INITIAL, before);
    var s' := Next(s, CancelPrevious(j));
    RunKeepsInv(INITIAL, before);
    InvIsKept(s, CancelPrevious(j));
    if HasFired(s, k) {
      assert [Queue(k)][1..] == [];
      assert After(s', [Queue(k)]) == Next(s', Queue(k));
      assert QueuedPromptly(s', [Queue(k)], k);
    }
    if later :| QueuedPromptly(s', later, k) {
      CancelledIsFinal(s', later, k);
    }
  }

  /** The fifteen seconds of the backfill are not over, or have not begun. */
  predicate InTime(s: State, k: nat)
    requires k < |s.calls|
  {
    match s.calls[k].goroutine
    case Armed(deadline) => s.now < deadline
    case Waiting(deadline) => s.now < deadline
    case Fired(deadline, _) => s.now < deadline
    case Queued(deadline, _) => s.now < deadline
    case _ => true
  }

  /** If it is not held up, a backfill that is cancelled before its fifteen seconds are over queues nothing. */
  lemma CancelledInTime(before: seq<Step>, j: nat, k: nat, later: seq<Step>)
    requires var s := After(INITIAL, before);
      Holds(s, j, k) && k < |s.calls| && InTime(s, k) && Prompt(Next(s, CancelPrevious(j)), later, k)
    ensures !IsQueued(After(Next(After(INITIAL, before), CancelPrevious(j)), later), k)
  {
    var s := After(INITIAL, before);
    RunKeepsInv(INITIAL, before);
    InvIsKept(s, CancelPrevious(j));
    CancelledIsFinal(Next(s, CancelPrevious(j)), later, k);
  }

  /** An armed backfill is not queued before its deadline, whatever happens. */
  lemma {:induction false} WaitsItOut(s: State, steps: seq<Step>, k: nat)
    requires Inv(s) && k < |s.calls| && (s.calls[k].goroutine.Armed? || s.calls[k].goroutine.Waiting?)
    ensures var end := After(s, steps);
      k < |end.calls| && match end.calls[k].goroutine
        case Queued(deadline, at) => deadline == s.calls[k].goroutine.deadline <= at
        case Fired(deadline, at) => deadline == s.calls[k].goroutine.deadline <= at
        case Armed(deadline) => deadline == s.calls[k].goroutine.deadline
        case Waiting(deadline) => deadline == s.calls[k].goroutine.deadline
        case g => g.Cancelled? && end.calls[k].cancelled
    decreases |steps|
  {
    RunKeepsInv(s, steps);
    DeadlineStays(s, steps, k);
  }

  predicate Underway(g: Goroutine, deadline: int) {
    match g
    case Armed(d) => d == deadline
    case Waiting(d) => d == deadline
    case Fired(d, _) => d == deadline
    case Queued(d, _) => d == deadline
    case Cancelled => true
    case _ => false
  }

  lemma {:induction false} DeadlineStays(s: State, steps: seq<Step>, k: nat)
    requires Inv(s) && k < |s.calls| && !s.calls[k].goroutine.NotStarted? && !s.calls[k].goroutine.Started?
    ensures k < |After(s, steps).calls|
    ensures var g := s.calls[k].goroutine;
      g.Cancelled? || Underway(After(s, steps).calls[k].goroutine, g.deadline)
    ensures s.calls[k].goroutine.Cancelled? ==> After(s, steps).calls[k].goroutine.Cancelled?
    decreases |steps|
  {
    if steps != [] {
      InvIsKept(s, steps[0]);
      DeadlineStays(Next(s, steps[0]), steps[1..], k);
    }
  }

  /** Whatever happens, a backfill is queued no sooner than fifteen seconds after its timer was armed. */
  lemma {:induction false} QueuedAfterFifteen(before: seq<Step>, k: nat, later: seq<Step>)
    requires Enabled(After(INITIAL, before), Arm(k))
    ensures var s := After(INITIAL, before);
      var end := After(Next(s, Arm(k)), later);
      IsQueued(end, k) ==> end.calls[k].goroutine.at >= s.now + 15_000_000
  {
    var s := After(INITIAL, before);
    RunKeepsInv(INITIAL, before);
    InvIsKept(s, Arm(k));
    WaitsItOut(Next(s, Arm(k)), later, k);
  }

  // ----- Bursts -----

  /** The backfill's call has not swapped, or its goroutine has ended without queuing. */
  predicate IsOff(s: State, k: nat) {
    k >= |s.calls| || s.calls[k].progress.Begun? || s.calls[k].goroutine.Cancelled?
  }

  lemma {:induction false} OffStaysOff(s: State, steps: seq<Step>, k: nat)
    requires Inv(s) && IsOff(s, k) && NoSwap(steps)
    ensures IsOff(After(s, steps), k)
    decreases |steps|
  {
    if steps != [] {
      InvIsKept(s, steps[0]);
      assert !steps[0].Swap?;
      OffStaysOff(Next(s, steps[0]), steps[1..], k);
    }
  }

  predicate QueuedWithoutSwap(s: State, later: seq<Step>, k: nat) {
    NoSwap(later) && IsQueued(After(s, later), k)
  }

  /**
   * What a burst leaves: until the next swap exactly those backfills can be queued whose calls have
   * swapped and whose goroutines have not ended cancelled, be they cancelled or not.
   */
  lemma BurstLeaves(burst: seq<Step>, k: nat)
    ensures var s := After(INITIAL, burst);
      (exists later :: QueuedWithoutSwap(s, later, k)) <==> !IsOff(s, k)
  {
    var s := After(INITIAL, burst);
    RunKeepsInv(INITIAL, burst);
    if IsOff(s, k) {
      forall later
        ensures !QueuedWithoutSwap(s, later, k)
      {
        if NoSwap(later) {
          RunKeepsInv(s, later);
          OffStaysOff(s, later, k);
        }
      }
    } else {
      var later := OnwardQueues(s, k);
      assert QueuedWithoutSwap(s, later, k);
    }
  }

  lemma FiredStep(s: State, step: Step, k: nat)
    requires Inv(s) && Quiescent(s) && IsPrompt(s, step, k) && HasFired(Next(s, step), k)
    ensures HasFired(s, k) || s.slot == Some(k)
  {
    if !HasFired(s, k) {
      assert Live(s, k);
      if j: nat :| Holds(s, j, k) {
        assert false;
      }
    }
  }

  lemma {:induction false} OnlyTheSlotFires(s: State, steps: seq<Step>, k: nat)
    requires Inv(s) && Quiescent(s) && NoSwap(steps) && Prompt(s, steps, k)
    ensures HasFired(After(s, steps), k) ==> HasFired(s, k) || s.slot == Some(k)
    decreases |steps|
  {
    if steps != [] {
      InvIsKept(s, steps[0]);
      assert !steps[0].Swap?;
      OnlyTheSlotFires(Next(s, steps[0]), steps[1..], k);
      if HasFired(Next(s, steps[0]), k) {
        FiredStep(s, steps[0], k);
      }
    }
  }

  /**
   * A burst leaves only the last one: when the calls of a burst have done their swaps and cancels, a
   * backfill whose timer has not fired yet and that is not held up is queued before the next swap
   * only if it is the one in the slot.
   */
  lemma BurstLeavesTheLast(burst: seq<Step>, later: seq<Step>, k: nat)
    requires var s := After(INITIAL, burst);
      Quiescent(s) && !HasFired(s, k) && NoSwap(later) && Prompt(s, later, k)
    requires IsQueued(After(After(INITIAL, burst), later), k)
    ensures After(INITIAL, burst).slot == Some(k)
  {
    RunKeepsInv(INITIAL, burst);
    OnlyTheSlotFires(After(INITIAL, burst), later, k);
  }

  lemma {:induction false} SlotWithoutSwap(s: State, steps: seq<Step>)
    requires NoSwap(steps)
    ensures After(s, steps).slot == s.slot
    decreases |steps|
  {
    if steps != [] {
      SlotWithoutSwap(Next(s, steps[0]), steps[1..]);
    }
  }

  /** The slot keeps the backfill of the last swap. */
  lemma SlotIsTheLastSwap(s: State, k: nat, later: seq<Step>)
    requires Enabled(s, Swap(k)) && NoSwap(later)
    ensures After(Next(s, Swap(k)), later).slot == Some(k)
  {
    SlotWithoutSwap(Next(s, Swap(k)), later);
  }

  // ----- What the conditions are for -----

  lemma AfterStep(s: State, step: Step, rest: seq<Step>)
    ensures After(s, [step] + rest) == After(Next(s, step), rest)
  {
    assert ([step] + rest)[1..] == rest;
  }

  lemma {:induction false} AfterBoth(s: State, first: seq<Step>, second: seq<Step>)
    ensures After(s, first + second) == After(After(s, first), second)
    decreases |first|
  {
    if first == [] {
      assert [] + second == second;
    } else {
      assert (first + second)[1..] == first[1..] + second;
      AfterBoth(Next(s, first[0]), first[1..], second);
    }
  }

  /** One call whose backfill has been armed. */
  function ArmedRun(): seq<Step> {
    [Begin] + ([Swap(0)] + ([CancelPrevious(0)] + ([Spawn(0)] + [Arm(0)])))
  }

  lemma ArmedRunIs()
    ensures After(INITIAL, ArmedRun()) == State(0, [Call(Returned, Armed(DELAY), false)], Some(0))
  {
    var s1 := Next(INITIAL, Begin);
    var s2 := Next(s1, Swap(0));
    var s3 := Next(s2, CancelPrevious(0));
    var s4 := Next(s3, Spawn(0));
    AfterStep(INITIAL, Begin, [Swap(0)] + ([CancelPrevious(0)] + ([Spawn(0)] + [Arm(0)])));
    AfterStep(s1, Swap(0), [CancelPrevious(0)] + ([Spawn(0)] + [Arm(0)]));
    AfterStep(s2, CancelPrevious(0), [Spawn(0)] + [Arm(0)]);
    AfterStep(s3, Spawn(0), [Arm(0)]);
    AfterStep(s4, Arm(0), []);
    assert [Arm(0)] + [] == [Arm(0)];
  }

  /** A second call that swaps and is about to cancel the first one's backfill. */
  lemma SecondCall(s: State)
    requires |s.calls| == 1 && s.slot == Some(0)
    ensures After(s, [Begin] + [Swap(1)]) == State(s.now, s.calls + [Call(Swapped(Some(0)), NotStarted, false)], Some(1))
  {
    AfterStep(s, Begin, [Swap(1)]);
    AfterStep(Next(s, Begin), Swap(1), []);
    assert [Swap(1)] + [] == [Swap(1)];
  }

  /**
   * A newer call that comes between the timer and the queuing is too late: the older backfill is
   * queued all the same, though the newer one is in the slot and nobody holds a cancel any more.
   */
  lemma CancelledTooLate() returns (before: seq<Step>)
    ensures var s := After(INITIAL, before);
      var cancelled := Next(s, CancelPrevious(1));
      && Holds(s, 1, 0) && !IsQueued(s, 0) && HasFired(s, 0)
      && Quiescent(cancelled) && cancelled.slot == Some(1)
      && IsQueued(Next(cancelled, Queue(0)), 0)
  {
    var fire := [Select(0, false)] + ([Advance(DELAY)] + [TimerFires(0)]);
    before := ArmedRun() + (fire + ([Begin] + [Swap(1)]));
    var armed := After(INITIAL, ArmedRun());
    ArmedRunIs();
    AfterBoth(INITIAL, ArmedRun(), fire + ([Begin] + [Swap(1)]));
    AfterBoth(armed, fire, [Begin] + [Swap(1)]);
    var waiting := Next(armed, Select(0, false));
    var later := Next(waiting, Advance(DELAY));
    AfterStep(armed, Select(0, false), [Advance(DELAY)] + [TimerFires(0)]);
    AfterStep(waiting, Advance(DELAY), [TimerFires(0)]);
    AfterStep(later, TimerFires(0), []);
    assert [TimerFires(0)] + [] == [TimerFires(0)];
    SecondCall(After(armed, fire));
  }

  /**
   * A goroutine that is held up for fifteen seconds on its way into the select may queue although it
   * was cancelled at once.
   */
  lemma SelectedTooLate() returns (before: seq<Step>)
    ensures var s := After(INITIAL, before);
      var cancelled := Next(s, CancelPrevious(1));
      && Holds(s, 1, 0) && 0 < |s.calls| && !HasFired(s, 0) && InTime(s, 0)
      && IsQueued(Next(Next(Next(cancelled, Advance(DELAY)), Select(0, true)), Queue(0)), 0)
  {
    before := ArmedRun() + ([Begin] + [Swap(1)]);
    ArmedRunIs();
    AfterBoth(INITIAL, ArmedRun(), [Begin] + [Swap(1)]);
    SecondCall(After(INITIAL, ArmedRun()));
    HeldUp(After(INITIAL, before));
  }

  lemma HeldUp(s: State)
    requires s == State(0, [Call(Returned, Armed(DELAY), false), Call(Swapped(Some(0)), NotStarted, false)], Some(1))
    ensures IsQueued(Next(Next(Next(Next(s, CancelPrevious(1)), Advance(DELAY)), Select(0, true)), Queue(0)), 0)
  {
    var cancelled := Next(s, CancelPrevious(1));
    assert cancelled == State(0, [Call(Returned, Armed(DELAY), true), Call(PastCancel, NotStarted, false)], Some(1));
    var late := Next(cancelled, Advance(DELAY));
    assert Next(late, Select(0, true)).calls[0].goroutine == Fired(DELAY, DELAY);
  }
}

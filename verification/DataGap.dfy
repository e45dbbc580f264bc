/**
 * The connector's memory of when data last came in, and the resync that uses it (handleGMEvent,
 * handleUserAlert and hackyResetActive in pkg/connector/handlegmessages.go, SyncConversations in
 * pkg/connector/chatsync.go). Times are microseconds of Unix time.
 */
module DataGap {
  import opened Basics

  datatype Alert =
    | BrowserInactive | BrowserActive | BrowserInactiveFromTimeout | BrowserInactiveFromInactivity
    | MobileDatabaseSyncStarted | MobileDatabaseSyncComplete
    | MobileDataConnection | MobileWifiConnection | MobileBatteryLow | MobileBatteryRestored
    | OtherAlert

  /**
   * HackyReset is the moment hackyResetActive takes effect, Disconnect a call of GMClient.Disconnect;
   * sessionID is the libgm client's current one.
   */
  datatype Event =
    | Conversation
    | Message(timestamp: int)
    | UserAlert(alert: Alert, sessionID: string)
    | Settings
    | NoDataReceived
    | HackyReset
    | AccountChange(enabled: bool, isFake: bool)
    | Disconnect
    | OtherEvent

  /** GMBrowserInactive, GMBrowserInactiveTimeout, GMBrowserInactiveInactivity or nothing. */
  datatype InactiveType = Active | Inactive | InactiveTimeout | InactiveInactivity

  datatype State = State(
    noDataReceivedRecently: bool, lastDataReceived: int, browserInactiveType: InactiveType, ready: bool,
    sessionID: string, didHackySetActive: bool, syncingMobileDatabase: bool)

  /** A started SyncConversations. */
  datatype Sync = Sync(lastDataReceived: int, minimal: bool)

  predicate WasInactive(s: State) {
    s.browserInactiveType != Active || !s.ready
  }

  /** Signs of life that are no data count only while no gap is known. */
  function Alive(s: State, now: int): State {
    if s.noDataReceivedRecently then s else s.(lastDataReceived := now)
  }

  function NextAlert(s: State, alert: Alert, sessionID: string, now: int): State {
    var alive := Alive(s, now);
    match alert
    case BrowserInactive => alive.(browserInactiveType := Inactive)
    case BrowserInactiveFromTimeout => alive.(browserInactiveType := InactiveTimeout)
    case BrowserInactiveFromInactivity => alive.(browserInactiveType := InactiveInactivity)
    case BrowserActive =>
      alive.(browserInactiveType := Active, ready := true, sessionID := sessionID,
             noDataReceivedRecently := false, lastDataReceived := now)
    case MobileDatabaseSyncStarted => alive.(syncingMobileDatabase := true)
    case MobileDatabaseSyncComplete => alive.(syncingMobileDatabase := false)
    case _ => alive
  }

  function Next(s: State, event: Event, now: int): State {
    match event
    case Conversation => s.(noDataReceivedRecently := false, lastDataReceived := now)
    case Message(timestamp) => s.(noDataReceivedRecently := false, lastDataReceived := Max(now, timestamp))
    case UserAlert(alert, sessionID) => NextAlert(s, alert, sessionID, now)
    case Settings => Alive(s, now)
    case NoDataReceived => s.(noDataReceivedRecently := true)
    case HackyReset =>
      if s.didHackySetActive then s
      else s.(didHackySetActive := true, noDataReceivedRecently := false, lastDataReceived := ZERO_TIME)
    case AccountChange(enabled, isFake) => if !isFake && !enabled then s.(ready := true) else s
    case Disconnect => s.(ready := false, browserInactiveType := Active)
    case OtherEvent => s
  }

  function SyncOf(s: State, event: Event, now: int): Option<Sync> {
    match event
    case UserAlert(BrowserActive, sessionID) =>
      if s.sessionID != sessionID || WasInactive(s) || s.noDataReceivedRecently then
        Some(Sync(Alive(s, now).lastDataReceived, s.sessionID == sessionID && !WasInactive(s)))
      else None
    case UserAlert(MobileDatabaseSyncComplete, _) => Some(Sync(Alive(s, now).lastDataReceived, true))
    case _ => None
  }

  class GMClient {
    var noDataReceivedRecently: bool
    var lastDataReceived: int
    var browserInactiveType: InactiveType
    var ready: bool
    var sessionID: string
    var didHackySetActive: bool
    var syncingMobileDatabase: bool

    function Snapshot(): State
      reads this
    {
      State(noDataReceivedRecently, lastDataReceived, browserInactiveType, ready, sessionID, didHackySetActive,
            syncingMobileDatabase)
    }

    method HandleUserAlert(alert: Alert, newSessionID: string, now: int) returns (sync: Option<Sync>)
      modifies this
      ensures Snapshot() == NextAlert(old(Snapshot()), alert, newSessionID, now)
      ensures sync == SyncOf(old(Snapshot()), UserAlert(alert, newSessionID), now)
    {
      sync := None;
      if !noDataReceivedRecently {
        lastDataReceived := now;
      }
      match alert
      case BrowserInactive =>
        browserInactiveType := Inactive;
      case BrowserActive =>
        var wasInactive := browserInactiveType != Active || !ready;
        browserInactiveType := Active;
        ready := true;
        var sessionIDChanged := sessionID != newSessionID;
        if sessionIDChanged || wasInactive || noDataReceivedRecently {
          sessionID := newSessionID;
          sync := Some(Sync(lastDataReceived, !sessionIDChanged && !wasInactive));
        }
        noDataReceivedRecently := false;
        lastDataReceived := now;
      case MobileDatabaseSyncStarted =>
        syncingMobileDatabase := true;
      case MobileDatabaseSyncComplete =>
        syncingMobileDatabase := false;
        sync := Some(Sync(lastDataReceived, true));
      case BrowserInactiveFromTimeout =>
        browserInactiveType := InactiveTimeout;
      case BrowserInactiveFromInactivity =>
        browserInactiveType := InactiveInactivity;
      case _ =>
    }

    method HackyResetActive()
      modifies this
      ensures forall now: int :: Snapshot() == Next(old(Snapshot()), HackyReset, now)
    {
      if didHackySetActive {
        return;
      }
      didHackySetActive := true;
      noDataReceivedRecently := false;
      lastDataReceived := ZERO_TIME;
    }

    method HandleAccountChange(enabled: bool, isFake: bool)
      modifies this
      ensures forall now: int :: Snapshot() == Next(old(Snapshot()), AccountChange(enabled, isFake), now)
    {
      var switchedToGoogleLogin := enabled || isFake;
      if !isFake {
        if !switchedToGoogleLogin {
          ready := true;
        }
      }
    }

    method HandleGMEvent(event: Event, now: int) returns (sync: Option<Sync>)
      modifies this
      ensures Snapshot() == Next(old(Snapshot()), event, now)
      ensures sync == SyncOf(old(Snapshot()), event, now)
    {
      sync := None;
      match event
      case Conversation =>
        noDataReceivedRecently := false;
        lastDataReceived := now;
      case Message(timestamp) =>
        noDataReceivedRecently := false;
        lastDataReceived := now;
        if timestamp > lastDataReceived {
          lastDataReceived := timestamp;
        }
      case UserAlert(alert, newSessionID) =>
        sync := HandleUserAlert(alert, newSessionID, now);
      case Settings =>
        if !noDataReceivedRecently {
          lastDataReceived := now;
        }
      case AccountChange(enabled, isFake) =>
        HandleAccountChange(enabled, isFake);
      case NoDataReceived =>
        noDataReceivedRecently := true;
      case HackyReset =>
        HackyResetActive();
      case Disconnect =>
        ready := false;
        browserInactiveType := Active;
      case OtherEvent =>
    }
  }

  // ----- The resync -----

  datatype ListedConversation = ListedConversation(id: string, lastMessageTimestamp: int)

  predicate HasNewer(list: seq<ListedConversation>, lastDataReceived: int) {
    exists i :: 0 <= i < |list| && list[i].lastMessageTimestamp > lastDataReceived
  }

  /** The conversations that are synced, when list is what the phone answers, if it answers. */
  function Synced(sync: Sync, list: Option<seq<ListedConversation>>): seq<ListedConversation> {
    match list
    case None => []
    case Some(list) =>
      if sync.minimal && (sync.lastDataReceived == ZERO_TIME || !HasNewer(list, sync.lastDataReceived)) then [] else list
  }

  method SyncConversations(lastDataReceived: int, minimal: bool, resp: Option<seq<ListedConversation>>)
      returns (synced: seq<ListedConversation>)
    ensures synced == Synced(Sync(lastDataReceived, minimal), resp)
  {
    synced := [];
    var minimalSync := minimal;
    if resp.None? {
      return;
    }
    var list := resp.value;
    if lastDataReceived != ZERO_TIME {
      for i := 0 to |list|
        invariant minimalSync <==> minimal && !HasNewer(list[..i], lastDataReceived)
      {
        if list[i].lastMessageTimestamp > lastDataReceived {
          assert list[..i + 1][i].lastMessageTimestamp > lastDataReceived;
          minimalSync := false;
        } else {
          assert list[..i + 1] == list[..i] + [list[i]];
        }
      }
      assert list[..|list|] == list;
    }
    if minimalSync {
      return;
    }
    for i := 0 to |list|
      invariant synced == list[..i]
    {
      synced := synced + [list[i]];
    }
  }

  // ----- Runs -----

  datatype Step = Step(event: Event, now: int)

  function After(s: State, steps: seq<Step>): State
    decreases |steps|
  {
    if steps == [] then s else After(Next(s, steps[0].event, steps[0].now), steps[1..])
  }

  function SyncsOf(s: State, steps: seq<Step>): seq<Sync>
    decreases |steps|
  {
    if steps == [] then []
    else
      (match SyncOf(s, steps[0].event, steps[0].now) case None => [] case Some(sync) => [sync])
      + SyncsOf(Next(s, steps[0].event, steps[0].now), steps[1..])
  }

  /** Data came in, the browser became active, or the reset that is done once took effect. */
  predicate ClosesGap(s: State, event: Event) {
    match event
    case Conversation => true
    case Message(_) => true
    case UserAlert(alert, _) => alert.BrowserActive?
    case HackyReset => !s.didHackySetActive
    case _ => false
  }

  predicate GapStaysOpen(s: State, steps: seq<Step>)
    decreases |steps|
  {
    steps == [] ||
    (!ClosesGap(s, steps[0].event) && GapStaysOpen(Next(s, steps[0].event, steps[0].now), steps[1..]))
  }

  /**
   * While the gap is open the time of the last data stands still, and every resync that starts uses
   * it. The gap is open exactly until one of the closing events.
   */
  lemma {:induction false} GapIsKept(s: State, steps: seq<Step>)
    requires s.noDataReceivedRecently && GapStaysOpen(s, steps)
    ensures After(s, steps).noDataReceivedRecently && After(s, steps).lastDataReceived == s.lastDataReceived
    ensures forall sync :: sync in SyncsOf(s, steps) ==> sync == Sync(s.lastDataReceived, true)
    decreases |steps|
  {
    if steps != [] {
      GapIsKept(Next(s, steps[0].event, steps[0].now), steps[1..]);
    }
  }

  lemma ClosingEvents(s: State, event: Event, now: int)
    requires s.noDataReceivedRecently
    ensures Next(s, event, now).noDataReceivedRecently <==> !ClosesGap(s, event)
    ensures Next(s, event, now).noDataReceivedRecently ==> Next(s, event, now).lastDataReceived == s.lastDataReceived
  {
  }

  /** Until data is missed again, the gap is open exactly if none of the closing events has come. */
  lemma {:induction false} GapIsOpenExactly(s: State, steps: seq<Step>)
    requires s.noDataReceivedRecently
    requires forall i :: 0 <= i < |steps| ==> steps[i].event != NoDataReceived
    ensures After(s, steps).noDataReceivedRecently <==> GapStaysOpen(s, steps)
    decreases |steps|
  {
    if steps != [] {
      var next := Next(s, steps[0].event, steps[0].now);
      ClosingEvents(s, steps[0].event, steps[0].now);
      if next.noDataReceivedRecently {
        GapIsOpenExactly(next, steps[1..]);
      } else {
        StaysClosed(next, steps[1..]);
      }
    }
  }

  lemma {:induction false} StaysClosed(s: State, steps: seq<Step>)
    requires !s.noDataReceivedRecently
    requires forall i :: 0 <= i < |steps| ==> steps[i].event != NoDataReceived
    ensures !After(s, steps).noDataReceivedRecently
    decreases |steps|
  {
    if steps != [] {
      assert steps[0].event != NoDataReceived;
      StaysClosed(Next(s, steps[0].event, steps[0].now), steps[1..]);
    }
  }

  /**
   * From NoDataReceived on, whatever settings, alerts and disconnects come in between, the first
   * BROWSER_ACTIVE starts a resync with the time data was last received before the gap. If the phone
   * lists its conversations, either all of them are synced or none has a message from the gap.
   */
  lemma GapIsResynced(s: State, gapStart: Step, steps: seq<Step>, active: Step, list: Option<seq<ListedConversation>>)
    requires gapStart.event == NoDataReceived
    requires GapStaysOpen(Next(s, NoDataReceived, gapStart.now), steps)
    requires active.event.UserAlert? && active.event.alert == BrowserActive
    ensures var sync := SyncOf(After(s, [gapStart] + steps), active.event, active.now);
      && sync.Some? && sync.value.lastDataReceived == s.lastDataReceived
      && (list.Some? && s.lastDataReceived != ZERO_TIME ==>
          || Synced(sync.value, list) == list.value
          || (Synced(sync.value, list) == [] && !HasNewer(list.value, s.lastDataReceived)))
      && (list.Some? && HasNewer(list.value, s.lastDataReceived) && s.lastDataReceived != ZERO_TIME ==>
          Synced(sync.value, list) == list.value)
    ensures var after := After(s, [gapStart] + steps + [active]);
      !after.noDataReceivedRecently && after.lastDataReceived == active.now && after.ready
  {
    var gap := Next(s, NoDataReceived, gapStart.now);
    assert ([gapStart] + steps)[1..] == steps;
    GapIsKept(gap, steps);
    AfterLast(s, [gapStart] + steps, active);
  }

  lemma {:induction false} AfterLast(s: State, steps: seq<Step>, last: Step)
    ensures After(s, steps + [last]) == Next(After(s, steps), last.event, last.now)
    decreases |steps|
  {
    if steps != [] {
      assert (steps + [last])[1..] == steps[1..] + [last];
      AfterLast(Next(s, steps[0].event, steps[0].now), steps[1..], last);
    }
  }

  /** The steps come no earlier than t, and the reset that is done once does not come, or has come. */
  predicate NoResetFrom(s: State, steps: seq<Step>, t: int) {
    forall i :: 0 <= i < |steps| ==> steps[i].now >= t && (steps[i].event == HackyReset ==> s.didHackySetActive)
  }

  lemma {:induction false} TimesOnlyGrow(s: State, steps: seq<Step>, t: int)
    requires s.lastDataReceived >= t && NoResetFrom(s, steps, t)
    ensures After(s, steps).lastDataReceived >= t
    ensures forall sync :: sync in SyncsOf(s, steps) ==> sync.lastDataReceived >= t
    decreases |steps|
  {
    if steps != [] {
      assert steps[0].now >= t && (steps[0].event == HackyReset ==> s.didHackySetActive);
      TimesOnlyGrow(Next(s, steps[0].event, steps[0].now), steps[1..], t);
    }
  }

  /**
   * The time of a gap is used up by the BROWSER_ACTIVE, whether or not the phone answers the resync:
   * whatever comes behind it, every later resync uses a time no older than the BROWSER_ACTIVE. So of a
   * list with no message newer than that, the later minimal syncs sync nothing and the others all.
   */
  lemma UnansweredResyncLosesGap(s: State, active: Step, steps: seq<Step>, sync: Sync, list: seq<ListedConversation>)
    requires active.event.UserAlert? && active.event.alert == BrowserActive && active.now > ZERO_TIME
    requires var after := Next(s, active.event, active.now);
      NoResetFrom(after, steps, active.now) && sync in SyncsOf(after, steps)
    requires !HasNewer(list, active.now) && list != []
    ensures sync.lastDataReceived >= active.now
    ensures Synced(sync, Some(list)) == if sync.minimal then [] else list
  {
    var after := Next(s, active.event, active.now);
    TimesOnlyGrow(after, steps, active.now);
    assert !HasNewer(list, sync.lastDataReceived);
  }

  /** A conversation with a message from the gap that is missed that way. */
  lemma LostConversation()
    ensures var s := State(true, 10, Active, true, "session", false, false);
      var active := UserAlert(BrowserActive, "session");
      var complete := UserAlert(MobileDatabaseSyncComplete, "session");
      var list := [ListedConversation("c", 20)];
      && HasNewer(list, s.lastDataReceived)
      && Synced(SyncOf(Next(s, active, 30), complete, 40).value, Some(list)) == []
  {
    assert [ListedConversation("c", 20)][0].lastMessageTimestamp > 10;
  }

  // ----- What starts a resync, by what was seen before -----

  predicate IsActive(event: Event) {
    event.UserAlert? && event.alert == BrowserActive
  }

  /** The session that the last BROWSER_ACTIVE named. */
  function SessionSeen(s: State, steps: seq<Step>): string {
    if steps == [] then s.sessionID
    else
      var last := steps[|steps| - 1].event;
      if IsActive(last) then last.sessionID else SessionSeen(s, steps[..|steps| - 1])
  }

  /** How the browser was last said to be inactive, unless it was active since or the connection was given up. */
  function InactiveSeen(s: State, steps: seq<Step>): InactiveType {
    if steps == [] then s.browserInactiveType
    else match SaysOfBrowser(steps[|steps| - 1].event)
      case Some(inactive) => inactive
      case None => InactiveSeen(s, steps[..|steps| - 1])
  }

  function SaysOfBrowser(event: Event): Option<InactiveType> {
    match event
    case UserAlert(alert, _) =>
      if alert == BrowserActive then Some(Active)
      else if alert == BrowserInactive then Some(Inactive)
      else if alert == BrowserInactiveFromTimeout then Some(InactiveTimeout)
      else if alert == BrowserInactiveFromInactivity then Some(InactiveInactivity)
      else None
    case Disconnect => Some(Active)
    case _ => None
  }

  lemma BrowserSaid(after: State, event: Event, now: int)
    ensures Next(after, event, now).browserInactiveType ==
      match SaysOfBrowser(event)
      case Some(inactive) => inactive
      case None => after.browserInactiveType
  {
  }

  /** The browser was active, or a real switch away from Google accounts came, and no disconnect since. */
  predicate ReadySeen(s: State, steps: seq<Step>) {
    if steps == [] then s.ready
    else
      var before := steps[..|steps| - 1];
      match steps[|steps| - 1].event
      case UserAlert(alert, _) => alert == BrowserActive || ReadySeen(s, before)
      case AccountChange(enabled, isFake) => (!enabled && !isFake) || ReadySeen(s, before)
      case Disconnect => false
      case _ => ReadySeen(s, before)
  }

  predicate HasReset(s: State, steps: seq<Step>) {
    s.didHackySetActive || exists i :: 0 <= i < |steps| && steps[i].event == HackyReset
  }

  /** Data was missed, and neither data nor a BROWSER_ACTIVE nor the first reset came since. */
  predicate GapSeen(s: State, steps: seq<Step>) {
    if steps == [] then s.noDataReceivedRecently
    else
      var before := steps[..|steps| - 1];
      match steps[|steps| - 1].event
      case NoDataReceived => true
      case Conversation => false
      case Message(_) => false
      case UserAlert(alert, _) => alert != BrowserActive && GapSeen(s, before)
      case HackyReset => HasReset(s, before) && GapSeen(s, before)
      case _ => GapSeen(s, before)
  }

  /** When data last came in; signs of life count as data only outside of a gap, a BROWSER_ACTIVE always. */
  function DataSeen(s: State, steps: seq<Step>): int {
    if steps == [] then s.lastDataReceived
    else
      var before, now := steps[..|steps| - 1], steps[|steps| - 1].now;
      match steps[|steps| - 1].event
      case Conversation => now
      case Message(timestamp) => Max(now, timestamp)
      case UserAlert(alert, _) => if alert != BrowserActive && GapSeen(s, before) then DataSeen(s, before) else now
      case Settings => if GapSeen(s, before) then DataSeen(s, before) else now
      case HackyReset => if HasReset(s, before) then DataSeen(s, before) else ZERO_TIME
      case _ => DataSeen(s, before)
  }

  /** Each field is decided by the last step that concerns it. */
  predicate IsAsSeen(after: State, s: State, steps: seq<Step>) {
    BrowserAsSeen(after, s, steps) && DataAsSeen(after, s, steps)
  }

  predicate BrowserAsSeen(after: State, s: State, steps: seq<Step>) {
    && after.sessionID == SessionSeen(s, steps)
    && after.browserInactiveType == InactiveSeen(s, steps)
    && after.ready == ReadySeen(s, steps)
  }

  predicate DataAsSeen(after: State, s: State, steps: seq<Step>) {
    && after.noDataReceivedRecently == GapSeen(s, steps)
    && after.lastDataReceived == DataSeen(s, steps)
    && after.didHackySetActive == HasReset(s, steps)
  }

  lemma ResetSeen(s: State, before: seq<Step>, last: Step)
    ensures HasReset(s, before + [last]) <==> HasReset(s, before) || last.event == HackyReset
  {
    var steps := before + [last];
    assert steps[|before|] == last && forall i :: 0 <= i < |before| ==> steps[i] == before[i];
  }

  lemma SessionStep(after: State, s: State, steps: seq<Step>)
    requires steps != [] && BrowserAsSeen(after, s, steps[..|steps| - 1])
    ensures Next(after, steps[|steps| - 1].event, steps[|steps| - 1].now).sessionID == SessionSeen(s, steps)
  {
  }

  lemma InactiveStep(after: State, s: State, steps: seq<Step>)
    requires steps != [] && BrowserAsSeen(after, s, steps[..|steps| - 1])
    ensures Next(after, steps[|steps| - 1].event, steps[|steps| - 1].now).browserInactiveType == InactiveSeen(s, steps)
  {
    BrowserSaid(after, steps[|steps| - 1].event, steps[|steps| - 1].now);
  }

  lemma ReadyStep(after: State, s: State, steps: seq<Step>)
    requires steps != [] && BrowserAsSeen(after, s, steps[..|steps| - 1])
    ensures Next(after, steps[|steps| - 1].event, steps[|steps| - 1].now).ready == ReadySeen(s, steps)
  {
  }

  lemma GapStep(after: State, s: State, steps: seq<Step>)
    requires steps != [] && DataAsSeen(after, s, steps[..|steps| - 1])
    ensures var next := Next(after, steps[|steps| - 1].event, steps[|steps| - 1].now);
      next.noDataReceivedRecently == GapSeen(s, steps)
  {
  }

  lemma ResetStep(after: State, s: State, steps: seq<Step>)
    requires steps != [] && DataAsSeen(after, s, steps[..|steps| - 1])
    ensures Next(after, steps[|steps| - 1].event, steps[|steps| - 1].now).didHackySetActive == HasReset(s, steps)
  {
    ResetSeen(s, steps[..|steps| - 1], steps[|steps| - 1]);
    assert steps[..|steps| - 1] + [steps[|steps| - 1]] == steps;
  }

  lemma DataStep(after: State, s: State, steps: seq<Step>)
    requires steps != [] && DataAsSeen(after, s, steps[..|steps| - 1])
    ensures Next(after, steps[|steps| - 1].event, steps[|steps| - 1].now).lastDataReceived == DataSeen(s, steps)
  {
  }

  lemma {:induction false} StateIsAsSeen(s: State, steps: seq<Step>)
    ensures IsAsSeen(After(s, steps), s, steps)
  {
    if steps != [] {
      var before, last := steps[..|steps| - 1], steps[|steps| - 1];
      assert steps == before + [last];
      StateIsAsSeen(s, before);
      AfterLast(s, before, last);
      SessionStep(After(s, before), s, steps);
      InactiveStep(After(s, before), s, steps);
      ReadyStep(After(s, before), s, steps);
      GapStep(After(s, before), s, steps);
      ResetStep(After(s, before), s, steps);
      DataStep(After(s, before), s, steps);
    }
  }

  /**
   * In every run a resync starts exactly when the phone has synced its database, or the browser becomes
   * active under another session, after it was inactive or not ready, or in a gap. It uses the time when
   * data last came in, which outside of a gap is now, and is minimal unless the browser came back from
   * being inactive or in another session.
   */
  lemma SyncStartsExactly(s: State, steps: seq<Step>, step: Step)
    ensures var sync := SyncOf(After(s, steps), step.event, step.now);
      var changed := IsActive(step.event) && step.event.sessionID != SessionSeen(s, steps);
      var back := IsActive(step.event) && (InactiveSeen(s, steps) != Active || !ReadySeen(s, steps));
      && (sync.Some? <==>
          || (step.event.UserAlert? && step.event.alert == MobileDatabaseSyncComplete)
          || (IsActive(step.event) && (changed || back || GapSeen(s, steps))))
      && (sync.Some? ==>
          && sync.value.lastDataReceived == (if GapSeen(s, steps) then DataSeen(s, steps) else step.now)
          && (sync.value.minimal <==> !changed && !back))
  {
    StateIsAsSeen(s, steps);
  }

  /** A minimal resync looks at the list only for a message newer than a known time, any other syncs it all. */
  lemma SyncedExactly(sync: Sync, list: seq<ListedConversation>)
    ensures Synced(sync, None) == []
    ensures Synced(sync, Some(list)) == list <==>
      || !sync.minimal || list == []
      || (sync.lastDataReceived != ZERO_TIME
          && exists i :: 0 <= i < |list| && list[i].lastMessageTimestamp > sync.lastDataReceived)
    ensures Synced(sync, Some(list)) in {[], list}
  {
  }
}

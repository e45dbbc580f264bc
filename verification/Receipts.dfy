/**
 * Status updates of one stored message (HandleExisting in pkg/connector/handlegmessages.go), run
 * together with the edits they cause. Group read receipts are not part of the model.
 */
module Receipts {
  import opened Basics
  import opened Messages
  import opened Reconcile
  import opened Edits

  /** DeleteAndResendThreshold in microseconds. */
  const DELETE_AND_RESEND_THRESHOLD := 604_800_000_000

  datatype SubEvent = Reactions | Resync(chatIDChanged: bool) | DeliveryReceipt | ReadReceipt

  /** What the bridge tells Matrix about a message that was sent from there. */
  datatype MessageStatus = Success | Failure(status: int)

  datatype UpsertResult = UpsertResult(
    continueMessageHandling: bool, saveParts: bool, subEvents: seq<SubEvent>, sent: Option<MessageStatus>)

  const NOTHING := UpsertResult(false, false, [], None)

  /** Where the update came from: the portal's type, and whether the message moved to it from another room. */
  datatype Portal = Portal(isDM: bool, chatIDChanged: bool)

  // ----- What is due -----

  predicate NeedsMSS(meta: Metadata, status: int) {
    meta.isOutgoing && !meta.mssSent && IsSuccessfullySentStatus(status)
  }

  predicate NeedsMSSFailure(meta: Metadata, status: int) {
    !meta.mssFailSent && !meta.mssSent && IsFailStatus(status)
  }

  predicate NeedsMSSDelivery(meta: Metadata, portal: Portal, status: int) {
    !meta.mssDeliverySent && portal.isDM && status in {OUTGOING_DELIVERED, OUTGOING_DISPLAYED}
  }

  predicate NeedsReadReceipt(meta: Metadata, portal: Portal, status: int) {
    !meta.readReceiptSent && portal.isDM && status == OUTGOING_DISPLAYED
  }

  predicate NeedsSome(meta: Metadata, portal: Portal, status: int) {
    NeedsMSS(meta, status) || NeedsMSSFailure(meta, status)
    || NeedsMSSDelivery(meta, portal, status) || NeedsReadReceipt(meta, portal, status)
  }

  predicate IsDowngrade(meta: Metadata, status: int) {
    DownloadStatusRank(status) < DownloadStatusRank(meta.status)
  }

  predicate DoResync(sha: string -> string, existing: seq<MessagePart>, m: Message, portal: Portal)
    requires existing != []
  {
    portal.chatIDChanged || ContentDiffers(sha, existing, m)
  }

  /** The update gets as far as sending statuses and receipts. */
  predicate Acts(sha: string -> string, existing: seq<MessagePart>, timestamp: int, m: Message, portal: Portal)
    requires existing != []
  {
    && !IsDowngrade(existing[0].meta, m.status)
    && m.timestamp - timestamp <= DELETE_AND_RESEND_THRESHOLD
    && (|| existing[0].meta.status != m.status
        || DoResync(sha, existing, m, portal)
        || NeedsSome(existing[0].meta, portal, m.status))
    && !(portal.chatIDChanged && DownloadPendingStatusMessage(m.status) != "" && !portal.isDM)
  }

  function Flagged(meta: Metadata, portal: Portal, status: int): Metadata {
    meta.(mssSent := meta.mssSent || NeedsMSS(meta, status),
          mssFailSent := meta.mssFailSent || (NeedsMSSFailure(meta, status) && !NeedsMSS(meta, status)),
          mssDeliverySent := meta.mssDeliverySent || NeedsMSSDelivery(meta, portal, status),
          readReceiptSent := meta.readReceiptSent || NeedsReadReceipt(meta, portal, status))
  }

  function Handled(sha: string -> string, existing: seq<MessagePart>, timestamp: int, m: Message, portal: Portal):
    seq<MessagePart>
    requires existing != []
  {
    if Acts(sha, existing, timestamp, m, portal) then
      existing[0 := existing[0].(meta := Flagged(existing[0].meta, portal, m.status))]
    else existing
  }

  /** The result of an update that acts. */
  function Announced(meta: Metadata, portal: Portal, status: int, resync: bool): UpsertResult {
    UpsertResult(
      false, true,
      (if resync then [Resync(portal.chatIDChanged)] else []) + [Reactions]
      + (if NeedsMSSDelivery(meta, portal, status) then [DeliveryReceipt] else [])
      + (if NeedsReadReceipt(meta, portal, status) then [ReadReceipt] else []),
      if NeedsMSS(meta, status) then Some(Success)
      else if NeedsMSSFailure(meta, status) then Some(Failure(status)) else None)
  }

  function ResultOf(sha: string -> string, existing: seq<MessagePart>, timestamp: int, m: Message, portal: Portal):
    UpsertResult
    requires existing != []
  {
    var meta, resync := existing[0].meta, DoResync(sha, existing, m, portal);
    if Acts(sha, existing, timestamp, m, portal) then Announced(meta, portal, m.status, resync)
    else if IsDowngrade(meta, m.status) then NOTHING
    else if m.timestamp - timestamp > DELETE_AND_RESEND_THRESHOLD then NOTHING.(continueMessageHandling := true)
    else if meta.status == m.status && !resync && !NeedsSome(meta, portal, m.status) then NOTHING.(subEvents := [Reactions])
    else NOTHING
  }

  method HasPending(existing: array<MessagePart>) returns (pending: bool)
    ensures pending == HasPendingMedia(existing[..])
  {
    for i := 0 to existing.Length
      invariant !HasPendingMedia(existing[..i])
    {
      if existing[i].meta.mediaPending {
        assert existing[..][i].meta.mediaPending;
        return true;
      }
      assert existing[..i + 1] == existing[..i] + [existing[i]];
    }
    assert existing[..existing.Length] == existing[..];
    return false;
  }

  method DoMessageResync(sha: string -> string, existing: array<MessagePart>, m: Message, portal: Portal)
      returns (resync: bool)
    requires existing.Length > 0
    ensures resync == DoResync(sha, existing[..], m, portal)
  {
    var meta := existing[0].meta;
    var hasPendingMedia := HasPending(existing);
    var updatedMediaIsComplete := !HasInProgressMedia(m);
    var messageWasEdited := MessageWasEdited(sha, existing[..], m);
    resync :=
      portal.chatIDChanged || meta.mediaStatus != DownloadPendingStatusMessage(m.status)
      || (hasPendingMedia && updatedMediaIsComplete) || messageWasEdited || meta.partCount != |m.parts|;
  }

  method HandleExisting(sha: string -> string, existing: array<MessagePart>, timestamp: int, m: Message, portal: Portal)
      returns (result: UpsertResult)
    requires existing.Length > 0
    modifies existing
    ensures existing[..] == Handled(sha, old(existing[..]), timestamp, m, portal)
    ensures result == ResultOf(sha, old(existing[..]), timestamp, m, portal)
  {
    var newStatus := m.status;
    var meta := existing[0].meta;
    if DownloadStatusRank(newStatus) < DownloadStatusRank(meta.status) {
      return NOTHING;
    }
    if m.timestamp - timestamp > DELETE_AND_RESEND_THRESHOLD {
      return NOTHING.(continueMessageHandling := true);
    }
    var doMessageResync := DoMessageResync(sha, existing, m, portal);
    if meta.status == newStatus && !doMessageResync && !NeedsSome(meta, portal, newStatus) {
      return NOTHING.(subEvents := [Reactions]);
    }
    if portal.chatIDChanged {
      if DownloadPendingStatusMessage(newStatus) != "" && !portal.isDM {
        return NOTHING;
      }
    }
    result := Announce(existing, portal, newStatus, doMessageResync);
  }

  /** The last part of HandleExisting. What is due was decided before the first flag is raised. */
  method Announce(existing: array<MessagePart>, portal: Portal, status: int, resync: bool) returns (result: UpsertResult)
    requires existing.Length > 0
    modifies existing
    ensures existing[..] == old(existing[..])[0 := old(existing[0]).(meta := Flagged(old(existing[0].meta), portal, status))]
    ensures result == Announced(old(existing[0].meta), portal, status, resync)
  {
    var meta := existing[0].meta;
    var needsMSSEvent := NeedsMSS(meta, status);
    var needsMSSFailureEvent := NeedsMSSFailure(meta, status);
    var needsMSSDeliveryEvent := NeedsMSSDelivery(meta, portal, status);
    var needsReadReceipt := NeedsReadReceipt(meta, portal, status);
    result := NOTHING.(subEvents := [Reactions]);
    if resync {
      result := result.(subEvents := [Resync(portal.chatIDChanged), Reactions]);
    }
    if needsMSSEvent {
      existing[0] := existing[0].(meta := existing[0].meta.(mssSent := true));
      result := result.(sent := Some(Success));
    } else if needsMSSFailureEvent {
      existing[0] := existing[0].(meta := existing[0].meta.(mssFailSent := true));
      result := result.(sent := Some(Failure(status)));
    }
    if needsMSSDeliveryEvent {
      existing[0] := existing[0].(meta := existing[0].meta.(mssDeliverySent := true));
      result := result.(subEvents := result.subEvents + [DeliveryReceipt]);
    }
    if needsReadReceipt {
      existing[0] := existing[0].(meta := existing[0].meta.(readReceiptSent := true));
      result := result.(subEvents := result.subEvents + [ReadReceipt]);
    }
    result := result.(saveParts := true);
  }

  /** Whatever flag is raised is saved, and an update that resyncs or tells anything syncs the reactions too. */
  lemma ChangesAreSaved(sha: string -> string, existing: seq<MessagePart>, timestamp: int, m: Message, portal: Portal)
    requires existing != []
    ensures var result := ResultOf(sha, existing, timestamp, m, portal);
      && (Handled(sha, existing, timestamp, m, portal) != existing ==> result.saveParts)
      && (result.saveParts <==> Acts(sha, existing, timestamp, m, portal))
      && (result.saveParts || result.subEvents != [] ==> Reactions in result.subEvents)
      && (result.continueMessageHandling ==> !result.saveParts && result.subEvents == [] && result.sent.None?)
  {
  }

  // ----- Runs -----

  /**
   * One update of the message. fails, ctx and edit stand for the conversion and the edit if there is
   * one; with applied false the edit never comes to be stored.
   */
  datatype Update = Update(
    m: Message, timestamp: int, portal: Portal, applied: bool, fails: nat -> bool, ctx: Context, edit: Edit)

  /** The result carries the sub-event from which an edit is made. */
  predicate AsksForResync(sha: string -> string, existing: seq<MessagePart>, u: Update)
    requires existing != []
  {
    Resync(u.portal.chatIDChanged) in ResultOf(sha, existing, u.timestamp, u.m, u.portal).subEvents
  }

  ghost predicate IsEdited(sha: string -> string, existing: seq<MessagePart>, u: Update)
    requires existing != []
  {
    && u.applied && AsksForResync(sha, existing, u)
    && Converted(sha, u.m, u.fails) != []
    && var handled := Handled(sha, existing, u.timestamp, u.m, u.portal);
      EditOf(handled, Carried(handled, Converted(sha, u.m, u.fails)), u.ctx, u.edit)
  }

  /** A message as the bridge stores it: one row a part, the main part under the empty id. */
  predicate WellStored(existing: seq<MessagePart>) {
    existing != [] && existing[0].id == "" && DistinctIDs(existing)
  }

  /** The update's edit panics at index 0: it is made, and the conversion has no part. */
  predicate EditPanics(sha: string -> string, existing: seq<MessagePart>, u: Update)
    requires existing != []
  {
    u.applied && AsksForResync(sha, existing, u) && Converted(sha, u.m, u.fails) == []
  }

  /**
   * The update is neither a downgrade of the download nor a week late, and does not bring a pending
   * download into another group chat.
   */
  predicate IsHeeded(stored: int, u: Update) {
    && DownloadStatusRank(u.m.status) >= DownloadStatusRank(stored)
    && u.m.timestamp - u.timestamp <= 604_800_000_000
    && !(u.portal.chatIDChanged && DownloadStatusRank(u.m.status) < 100 && !u.portal.isDM)
  }

  /**
   * A heeded update syncs the reactions, and before that resyncs the message exactly if its chat
   * changed or its content differs; no other update does either. No sub-event is asked for twice.
   */
  lemma SubEventsAreExact(sha: string -> string, existing: seq<MessagePart>, u: Update)
    requires existing != []
    ensures var subEvents := ResultOf(sha, existing, u.timestamp, u.m, u.portal).subEvents;
      && (forall changed :: Resync(changed) in subEvents <==>
          && IsHeeded(existing[0].meta.status, u) && changed == u.portal.chatIDChanged
          && (u.portal.chatIDChanged || ContentDiffers(sha, existing, u.m)))
      && (Reactions in subEvents <==> IsHeeded(existing[0].meta.status, u))
      && (AsksForResync(sha, existing, u) ==> |subEvents| >= 2 && subEvents[0].Resync? && subEvents[1] == Reactions)
      && NoDuplicates(subEvents)
  {
    PendingIsRanked(u.m.status);
    if Acts(sha, existing, u.timestamp, u.m, u.portal) {
      AnnouncedAre(existing[0].meta, u.portal, u.m.status, DoResync(sha, existing, u.m, u.portal));
    }
  }

  lemma AnnouncedAre(meta: Metadata, portal: Portal, status: int, resync: bool)
    ensures var subEvents := Announced(meta, portal, status, resync).subEvents;
      && (forall changed :: Resync(changed) in subEvents <==> resync && changed == portal.chatIDChanged)
      && Reactions in subEvents && NoDuplicates(subEvents)
      && (resync ==> |subEvents| >= 2 && subEvents[0].Resync? && subEvents[1] == Reactions)
  {
  }

  /** The message is handed on to be sent anew exactly if the update is a week late and no downgrade. */
  lemma SentAnewExactly(sha: string -> string, existing: seq<MessagePart>, u: Update)
    requires existing != []
    ensures ResultOf(sha, existing, u.timestamp, u.m, u.portal).continueMessageHandling <==>
      && DownloadStatusRank(u.m.status) >= DownloadStatusRank(existing[0].meta.status)
      && u.m.timestamp - u.timestamp > 604_800_000_000
  {
  }

  /** An update's edit panics exactly if it asks for a resync with a message that has nothing to show and nothing to come. */
  lemma PanicsExactly(sha: string -> string, existing: seq<MessagePart>, u: Update)
    requires existing != [] && u.applied
    ensures EditPanics(sha, existing, u) <==>
      && IsHeeded(existing[0].meta.status, u) && IsBare(u.m)
      && (u.portal.chatIDChanged || ContentDiffers(sha, existing, u.m))
  {
    SubEventsAreExact(sha, existing, u);
    ConvertedIsEmpty(sha, u.m, u.fails);
  }

  /** A stored text that is taken away leads there, unless the update is a downgrade or comes too late. */
  lemma BaringTextPanics(sha: string -> string, existing: seq<MessagePart>, u: Update)
    requires existing != [] && existing[0].meta.textHash != "" && IsBare(u.m) && u.applied
    requires !IsDowngrade(existing[0].meta, u.m.status) && u.m.timestamp - u.timestamp <= DELETE_AND_RESEND_THRESHOLD
    ensures EditPanics(sha, existing, u)
  {
    BodyIsBlank(u.m);
    assert TextHash(sha, u.m) == "";
    assert WasEdited(sha, existing, u.m);
    PanicsExactly(sha, existing, u);
  }

  /** A stored text message and an update that leaves nothing of it. */
  lemma SomeUpdatePanics(sha: string -> string, u: Update)
    requires sha("hi\0") != ""
    requires u.m == Message("", [], OUTGOING_COMPLETE, 0) && u.timestamp == 0 && u.applied
    ensures var existing := Converted(sha, Message("hi", [], OUTGOING_COMPLETE, 0), NoFailure);
      WellStored(existing) && EditPanics(sha, existing, u)
  {
    var text := Message("hi", [], OUTGOING_COMPLETE, 0);
    var existing := Converted(sha, text, NoFailure);
    TitleIsText(sha, text);
    MainOfConversion(sha, text, NoFailure);
    assert existing == [TextPart(sha, text).value];
    assert TextHash(sha, text) == sha("hi\0") by {
      assert HashInput(text, 0) == "hi" + "\0" == "hi\0";
    }
    assert TextsOf(u.m) == [];
    BaringTextPanics(sha, existing, u);
  }

  /** None once the message was deleted to be sent anew. An edit that panics stores nothing. */
  ghost function After(sha: string -> string, existing: seq<MessagePart>, u: Update): Option<seq<MessagePart>>
    requires existing != []
  {
    var handled := Handled(sha, existing, u.timestamp, u.m, u.portal);
    if ResultOf(sha, existing, u.timestamp, u.m, u.portal).continueMessageHandling then None
    else if IsEdited(sha, existing, u) then Some(Stored(handled, u.edit))
    else Some(handled)
  }

  datatype Signal = MSSSuccess | MSSFailure | Delivered | Read

  function Signals(result: UpsertResult): seq<Signal> {
    (match result.sent
     case None => []
     case Some(Success) => [MSSSuccess]
     case Some(Failure(_)) => [MSSFailure])
    + (if DeliveryReceipt in result.subEvents then [Delivered] else [])
    + (if ReadReceipt in result.subEvents then [Read] else [])
  }

  function SignalsOf(sha: string -> string, existing: seq<MessagePart>, u: Update): seq<Signal>
    requires existing != []
  {
    Signals(ResultOf(sha, existing, u.timestamp, u.m, u.portal))
  }

  /** The row remembers the message as it is now. */
  predicate ShowsMessage(sha: string -> string, meta: Metadata, m: Message) {
    && meta.status == m.status && meta.textHash == TextHash(sha, m) && meta.partCount == |m.parts|
    && meta.mediaStatus == DownloadPendingStatusMessage(m.status)
  }

  /** The main part of the message once the update is done. */
  lemma MainAfter(sha: string -> string, existing: seq<MessagePart>, u: Update)
    requires WellStored(existing) && After(sha, existing, u).Some?
    ensures var stored := After(sha, existing, u).value;
      var handled := Handled(sha, existing, u.timestamp, u.m, u.portal);
      && WellStored(stored)
      && stored[0].meta.isOutgoing == existing[0].meta.isOutgoing
      && (forall signal :: Told(stored[0].meta, signal) == Told(handled[0].meta, signal))
      && stored[0].meta.status in {existing[0].meta.status, u.m.status}
      && DownloadStatusRank(stored[0].meta.status) >= DownloadStatusRank(existing[0].meta.status)
      && if IsEdited(sha, existing, u) then ShowsMessage(sha, stored[0].meta, u.m) else stored == handled
  {
    SubEventsAreExact(sha, existing, u);
    var handled := Handled(sha, existing, u.timestamp, u.m, u.portal);
    if IsEdited(sha, existing, u) {
      MainOfConversion(sha, u.m, u.fails);
      MainAfterEdit(handled, Carried(handled, Converted(sha, u.m, u.fails)), u.ctx, u.edit);
    }
  }

  /**
   * From the phone's text to the stored row: when title or texts of a stored message change, a heeded
   * update asks for the resync, and once its edit is stored the row remembers the new text.
   */
  lemma TextEditIsStored(
    sha: string -> string, existing: seq<MessagePart>, before: Message, fails: nat -> bool, u: Update)
    requires AreRowsOf(sha, existing, before, fails)
    requires HasNoZeros(before) && HasNoZeros(u.m) && HashesTell(sha, before, u.m)
    requires !IsBlank(before) && (before.subject != u.m.subject || TextsOf(before) != TextsOf(u.m))
    requires IsHeeded(before.status, u)
    ensures AsksForResync(sha, existing, u)
    ensures WellStored(existing) && IsEdited(sha, existing, u) ==>
      && After(sha, existing, u).Some? && After(sha, existing, u).value != []
      && ShowsMessage(sha, After(sha, existing, u).value[0].meta, u.m)
  {
    TextEditIsSeen(sha, existing, before, u.m, fails);
    MainOfConversion(sha, before, fails);
    SubEventsAreExact(sha, existing, u);
    SentAnewExactly(sha, existing, u);
    if WellStored(existing) && IsEdited(sha, existing, u) {
      MainAfter(sha, existing, u);
    }
  }

  /** The flag that remembers a signal. */
  predicate Told(meta: Metadata, signal: Signal) {
    match signal
    case MSSSuccess => meta.mssSent
    case MSSFailure => meta.mssFailSent
    case Delivered => meta.mssDeliverySent
    case Read => meta.readReceiptSent
  }

  /**
   * The update calls for the signal, whatever was told before. A message is complete with status 1,
   * delivered with 2 and displayed with 11; the statuses of failures run from 8 to 22.
   */
  predicate CallsFor(meta: Metadata, portal: Portal, status: int, signal: Signal) {
    match signal
    case MSSSuccess => meta.isOutgoing && status in {1, 2, 11}
    case MSSFailure => !meta.mssSent && status in {8, 9, 12, 13, 17, 18, 19, 21, 22}
    case Delivered => portal.isDM && status in {2, 11}
    case Read => portal.isDM && status == 11
  }

  /** A status that calls for a signal is no stage of a download, and no status is a success and a failure. */
  lemma CallingStatus(meta: Metadata, portal: Portal, status: int, signal: Signal)
    requires CallsFor(meta, portal, status, signal)
    ensures DownloadStatusRank(status) == 100 && DownloadPendingStatusMessage(status) == ""
    ensures !(IsSuccessfullySentStatus(status) && IsFailStatus(status))
  {
  }

  function SignalList(success: bool, failure: bool, delivered: bool, read: bool): seq<Signal> {
    (if success then [MSSSuccess] else if failure then [MSSFailure] else [])
    + (if delivered then [Delivered] else []) + (if read then [Read] else [])
  }

  lemma SignalListFacts(success: bool, failure: bool, delivered: bool, read: bool, signal: Signal)
    requires !(success && failure)
    ensures var signals := SignalList(success, failure, delivered, read);
      && (signal in signals <==> match signal
          case MSSSuccess => success
          case MSSFailure => failure
          case Delivered => delivered
          case Read => read)
      && Count(signals, signal) == (if signal in signals then 1 else 0)
  {
  }

  lemma SignalListOrder(success: bool, failure: bool, delivered: bool, read: bool)
    ensures NoFailureAfterSuccess(SignalList(success, failure, delivered, read))
  {
  }

  lemma SignalsAnnounced(meta: Metadata, portal: Portal, status: int, resync: bool)
    ensures Signals(Announced(meta, portal, status, resync)) == SignalList(
      NeedsMSS(meta, status), NeedsMSSFailure(meta, status) && !NeedsMSS(meta, status),
      NeedsMSSDelivery(meta, portal, status), NeedsReadReceipt(meta, portal, status))
  {
  }

  lemma AnnouncedSignals(meta: Metadata, portal: Portal, status: int, resync: bool, signal: Signal)
    ensures var signals := Signals(Announced(meta, portal, status, resync));
      && (signal in signals <==> CallsFor(meta, portal, status, signal) && !Told(meta, signal))
      && (Told(Flagged(meta, portal, status), signal) <==> Told(meta, signal) || signal in signals)
      && Count(signals, signal) == (if signal in signals then 1 else 0)
      && NoFailureAfterSuccess(signals)
  {
    SignalsAnnounced(meta, portal, status, resync);
    SignalListFacts(
      NeedsMSS(meta, status), NeedsMSSFailure(meta, status) && !NeedsMSS(meta, status),
      NeedsMSSDelivery(meta, portal, status), NeedsReadReceipt(meta, portal, status), signal);
    SignalListOrder(
      NeedsMSS(meta, status), NeedsMSSFailure(meta, status) && !NeedsMSS(meta, status),
      NeedsMSSDelivery(meta, portal, status), NeedsReadReceipt(meta, portal, status));
    if CallsFor(meta, portal, status, signal) {
      CallingStatus(meta, portal, status, signal);
    }
  }

  /**
   * A signal is given exactly when the update calls for it, it was not given before, and the update
   * is not so late that the message is sent anew. Nothing else in the update can hold it back.
   */
  lemma SignalIsGiven(sha: string -> string, existing: seq<MessagePart>, u: Update, signal: Signal)
    requires existing != []
    ensures signal in SignalsOf(sha, existing, u) <==>
      && CallsFor(existing[0].meta, u.portal, u.m.status, signal)
      && !Told(existing[0].meta, signal)
      && u.m.timestamp - u.timestamp <= DELETE_AND_RESEND_THRESHOLD
  {
    var meta := existing[0].meta;
    if Acts(sha, existing, u.timestamp, u.m, u.portal) {
      AnnouncedSignals(meta, u.portal, u.m.status, DoResync(sha, existing, u.m, u.portal), signal);
    } else if CallsFor(meta, u.portal, u.m.status, signal) {
      CallingStatus(meta, u.portal, u.m.status, signal);
    }
  }

  /** The signals of one update and the main part behind it. */
  ghost predicate IsOneShot(before: Metadata, signals: seq<Signal>, after: Metadata, signal: Signal) {
    && (signal in signals ==> !Told(before, signal))
    && Count(signals, signal) == (if signal in signals then 1 else 0)
    && NoFailureAfterSuccess(signals)
    && (Told(after, signal) <==> Told(before, signal) || signal in signals)
  }

  lemma OnlyActingTells(sha: string -> string, existing: seq<MessagePart>, u: Update)
    requires existing != []
    ensures var handled := Handled(sha, existing, u.timestamp, u.m, u.portal);
      if Acts(sha, existing, u.timestamp, u.m, u.portal) then
        && handled[0].meta == Flagged(existing[0].meta, u.portal, u.m.status)
        && SignalsOf(sha, existing, u)
          == Signals(Announced(existing[0].meta, u.portal, u.m.status, DoResync(sha, existing, u.m, u.portal)))
      else handled == existing && SignalsOf(sha, existing, u) == []
  {
  }

  lemma NothingIsOneShot(meta: Metadata, signal: Signal)
    ensures IsOneShot(meta, [], meta, signal)
  {
  }

  lemma AnnouncedIsOneShot(meta: Metadata, portal: Portal, status: int, resync: bool, signal: Signal)
    ensures var signals := Signals(Announced(meta, portal, status, resync));
      && IsOneShot(meta, signals, Flagged(meta, portal, status), signal)
      && (MSSFailure in signals ==> !meta.mssSent)
  {
    AnnouncedSignals(meta, portal, status, resync, signal);
    AnnouncedSignals(meta, portal, status, resync, MSSFailure);
  }

  lemma HandledIsOneShot(sha: string -> string, existing: seq<MessagePart>, u: Update, signal: Signal)
    requires existing != []
    ensures var handled := Handled(sha, existing, u.timestamp, u.m, u.portal);
      && IsOneShot(existing[0].meta, SignalsOf(sha, existing, u), handled[0].meta, signal)
      && (MSSFailure in SignalsOf(sha, existing, u) ==> !existing[0].meta.mssSent)
  {
    OnlyActingTells(sha, existing, u);
    NothingIsOneShot(existing[0].meta, signal);
    AnnouncedIsOneShot(existing[0].meta, u.portal, u.m.status, DoResync(sha, existing, u.m, u.portal), signal);
  }

  /** The four flags as the signals raise them, and everything else as before. */
  function Raised(meta: Metadata, signals: seq<Signal>): Metadata {
    meta.(mssSent := meta.mssSent || MSSSuccess in signals,
          mssFailSent := meta.mssFailSent || MSSFailure in signals,
          mssDeliverySent := meta.mssDeliverySent || Delivered in signals,
          readReceiptSent := meta.readReceiptSent || Read in signals)
  }

  lemma FlaggedIsRaised(meta: Metadata, portal: Portal, status: int, resync: bool)
    ensures Flagged(meta, portal, status) == Raised(meta, Signals(Announced(meta, portal, status, resync)))
  {
    AnnouncedSignals(meta, portal, status, resync, MSSSuccess);
    AnnouncedSignals(meta, portal, status, resync, MSSFailure);
    AnnouncedSignals(meta, portal, status, resync, Delivered);
    AnnouncedSignals(meta, portal, status, resync, Read);
  }

  /** Apart from the edit an update changes nothing but the four flags of the main part. */
  lemma OnlyFlagsChange(sha: string -> string, existing: seq<MessagePart>, u: Update)
    requires existing != []
    ensures Handled(sha, existing, u.timestamp, u.m, u.portal) ==
      existing[0 := existing[0].(meta := Raised(existing[0].meta, SignalsOf(sha, existing, u)))]
  {
    OnlyActingTells(sha, existing, u);
    if Acts(sha, existing, u.timestamp, u.m, u.portal) {
      FlaggedIsRaised(existing[0].meta, u.portal, u.m.status, DoResync(sha, existing, u.m, u.portal));
    }
  }

  /** A failure is told with the status that it has, and success and failure go by what is due. */
  lemma StatusIsTold(sha: string -> string, existing: seq<MessagePart>, u: Update)
    requires existing != []
    ensures var sent, signals := ResultOf(sha, existing, u.timestamp, u.m, u.portal).sent, SignalsOf(sha, existing, u);
      sent == if MSSSuccess in signals then Some(Success)
              else if MSSFailure in signals then Some(Failure(u.m.status)) else None
  {
  }

  /** The rows are saved exactly if a heeded update changes the status, asks for a resync or gives a signal. */
  lemma SavedExactly(sha: string -> string, existing: seq<MessagePart>, u: Update)
    requires existing != []
    ensures ResultOf(sha, existing, u.timestamp, u.m, u.portal).saveParts <==>
      && IsHeeded(existing[0].meta.status, u)
      && (existing[0].meta.status != u.m.status || AsksForResync(sha, existing, u) || SignalsOf(sha, existing, u) != [])
  {
    PendingIsRanked(u.m.status);
    SubEventsAreExact(sha, existing, u);
    if Acts(sha, existing, u.timestamp, u.m, u.portal) {
      SignalsAnnounced(existing[0].meta, u.portal, u.m.status, DoResync(sha, existing, u.m, u.portal));
    }
  }

  /** What one update does to a flag, and the order of its signals. */
  lemma UpdateIsOneShot(sha: string -> string, existing: seq<MessagePart>, u: Update, signal: Signal)
    requires WellStored(existing)
    ensures MSSFailure in SignalsOf(sha, existing, u) ==> !existing[0].meta.mssSent
    ensures match After(sha, existing, u)
      case None => IsOneShot(existing[0].meta, SignalsOf(sha, existing, u), existing[0].meta, signal)
      case Some(stored) =>
        WellStored(stored) && IsOneShot(existing[0].meta, SignalsOf(sha, existing, u), stored[0].meta, signal)
  {
    HandledIsOneShot(sha, existing, u, signal);
    if After(sha, existing, u).Some? {
      MainAfter(sha, existing, u);
    }
  }

  function Count(signals: seq<Signal>, signal: Signal): nat {
    multiset(signals)[signal]
  }

  ghost predicate NoFailureAfterSuccess(signals: seq<Signal>) {
    forall i, j :: 0 <= i < j < |signals| && signals[i] == MSSSuccess ==> signals[j] != MSSFailure
  }

  /** Everything a run of updates tells Matrix, in order, and the main part it leaves. */
  ghost function Run(sha: string -> string, existing: seq<MessagePart>, updates: seq<Update>): (seq<Signal>, Metadata)
    requires WellStored(existing)
    decreases |updates|
  {
    if updates == [] then ([], existing[0].meta)
    else
      var signals := SignalsOf(sha, existing, updates[0]);
      match After(sha, existing, updates[0])
      case None => (signals, existing[0].meta)
      case Some(stored) =>
        MainAfter(sha, existing, updates[0]);
        var rest := Run(sha, stored, updates[1..]);
        (signals + rest.0, rest.1)
  }

  /** Flag and signal go together: in any run each signal is given as often as its flag is raised. */
  lemma {:induction false} SignalsAreConserved(
    sha: string -> string, existing: seq<MessagePart>, updates: seq<Update>, signal: Signal)
    requires WellStored(existing)
    ensures var (signals, meta) := Run(sha, existing, updates);
      (if Told(existing[0].meta, signal) then 1 else 0) + Count(signals, signal) == (if Told(meta, signal) then 1 else 0)
    decreases |updates|
  {
    if updates != [] {
      UpdateIsOneShot(sha, existing, updates[0], signal);
      if After(sha, existing, updates[0]).Some? {
        SignalsAreConserved(sha, After(sha, existing, updates[0]).value, updates[1..], signal);
      }
    }
  }

  lemma {:induction false} SuccessIsFinal(sha: string -> string, existing: seq<MessagePart>, updates: seq<Update>)
    requires WellStored(existing)
    ensures var signals := Run(sha, existing, updates).0;
      NoFailureAfterSuccess(signals) && (existing[0].meta.mssSent ==> MSSFailure !in signals)
    decreases |updates|
  {
    if updates != [] {
      UpdateIsOneShot(sha, existing, updates[0], MSSSuccess);
      if After(sha, existing, updates[0]).Some? {
        SuccessIsFinal(sha, After(sha, existing, updates[0]).value, updates[1..]);
      }
    }
  }

  /** The rank of the stored status never falls, and who sent the message never changes. */
  lemma {:induction false} RankNeverFalls(sha: string -> string, existing: seq<MessagePart>, updates: seq<Update>)
    requires WellStored(existing)
    ensures var meta := Run(sha, existing, updates).1;
      && DownloadStatusRank(meta.status) >= DownloadStatusRank(existing[0].meta.status)
      && meta.isOutgoing == existing[0].meta.isOutgoing
    decreases |updates|
  {
    if updates != [] && After(sha, existing, updates[0]).Some? {
      MainAfter(sha, existing, updates[0]);
      RankNeverFalls(sha, After(sha, existing, updates[0]).value, updates[1..]);
    }
  }

  /** Each signal is one-shot, a failure never follows a success, and a download never seems to start over. */
  lemma ReceiptsAreOneShot(sha: string -> string, existing: seq<MessagePart>, updates: seq<Update>)
    requires WellStored(existing)
    ensures var (signals, meta) := Run(sha, existing, updates);
      && (forall signal :: Count(signals, signal) <= 1)
      && NoFailureAfterSuccess(signals)
      && DownloadStatusRank(meta.status) >= DownloadStatusRank(existing[0].meta.status)
  {
    forall signal: Signal
      ensures Count(Run(sha, existing, updates).0, signal) <= 1
    {
      SignalsAreConserved(sha, existing, updates, signal);
    }
    SuccessIsFinal(sha, existing, updates);
    RankNeverFalls(sha, existing, updates);
  }
}

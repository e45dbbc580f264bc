/**
 * Conversion of a remote message into parts, and the comparison of stored parts with a message that
 * arrives again (ConvertGoogleMessage, MessageWasEdited and the resync conditions of HandleExisting
 * in pkg/connector/handlegmessages.go). Captions are not merged.
 */
module Reconcile {
  import opened Basics
  import opened Messages

  // ----- Conversion -----

  /** The part made of media part i; fails says whether copying the attachment failed. */
  function ConvertedMedia(m: Message, i: nat, isFirst: bool, fails: bool): MessagePart
    requires i < |m.parts| && m.parts[i].Media?
  {
    var p := m.parts[i];
    var meta := NO_METADATA.(
      status := m.status, mediaPartID := p.actionID,
      mediaID := BestMediaID(p), mediaPending := InProgress(p) || fails);
    if isFirst then MessagePart("", meta.(partCount := |m.parts|, mediaStatus := DownloadPendingStatusMessage(m.status)))
    else MessagePart(p.actionID, meta)
  }

  /** The media parts from position i on. */
  function MediaFrom(m: Message, i: nat, isFirst: bool, fails: nat -> bool): seq<MessagePart>
    requires i <= |m.parts|
    decreases |m.parts| - i
  {
    if i == |m.parts| then []
    else if m.parts[i].Media? then
      [ConvertedMedia(m, i, isFirst, fails(i))] + MediaFrom(m, i + 1, false, fails)
    else MediaFrom(m, i + 1, isFirst, fails)
  }

  function Converted(sha: string -> string, m: Message, fails: nat -> bool): seq<MessagePart> {
    match TextPart(sha, m)
    case None => MediaFrom(m, 0, true, fails)
    case Some(t) => [t] + MediaFrom(m, 0, false, fails)
  }

  method ConvertGoogleMessage(sha: string -> string, m: Message, fails: nat -> bool) returns (parts: seq<MessagePart>)
    ensures parts == Converted(sha, m, fails)
  {
    parts := [];
    var textPart, _ := GetTextPart(sha, m);
    if textPart.Some? {
      parts := parts + [textPart.value];
    }
    var isFirstPart := textPart.None?;
    for i := 0 to |m.parts|
      invariant Converted(sha, m, fails) == parts + MediaFrom(m, i, isFirstPart, fails)
    {
      var p := m.parts[i];
      if !p.Media? {
        continue;
      }
      var meta := NO_METADATA.(status := m.status, mediaPartID := p.actionID);
      var partID := p.actionID;
      ghost var wasFirst := isFirstPart;
      if isFirstPart {
        partID := "";
        meta := meta.(partCount := |m.parts|, mediaStatus := DownloadPendingStatusMessage(m.status));
        isFirstPart := false;
      }
      if p.mediaID == "" && p.thumbnailID == "" {
        meta := meta.(mediaPending := true);
      } else if fails(i) {
        meta := meta.(mediaPending := true, mediaID := BestMediaID(p));
      } else {
        meta := meta.(mediaID := BestMediaID(p));
      }
      assert MessagePart(partID, meta) == ConvertedMedia(m, i, wasFirst, fails(i));
      assert parts + ([MessagePart(partID, meta)] + MediaFrom(m, i + 1, false, fails))
          == parts + [MessagePart(partID, meta)] + MediaFrom(m, i + 1, false, fails);
      parts := parts + [MessagePart(partID, meta)];
    }
  }

  /** A message with a title has a text part. */
  lemma TitleIsText(sha: string -> string, m: Message)
    requires m.subject != ""
    ensures TextPart(sha, m).Some?
  {
    var title := "\n**" + m.subject + "**";
    assert |TrimNewline(title + Lines(m.parts, |m.parts|))| > 0;
    assert TextBody(m) == TrimNewline(title + Lines(m.parts, |m.parts|));
  }

  /** A message with nothing to show, no pending download and no media. */
  predicate IsBare(m: Message) {
    && IsBlank(m) && DownloadStatusRank(m.status) == 100
    && forall i :: 0 <= i < |m.parts| ==> !m.parts[i].Media?
  }

  /** A conversion has a part, as ConvertEdit needs it, unless the message is bare. */
  lemma ConvertedIsEmpty(sha: string -> string, m: Message, fails: nat -> bool)
    ensures Converted(sha, m, fails) == [] <==> IsBare(m)
  {
    BodyIsBlank(m);
    PendingIsRanked(m.status);
    MediaIsEmpty(m, 0, TextPart(sha, m).None?, fails);
  }

  lemma {:induction false} MediaIsEmpty(m: Message, i: nat, isFirst: bool, fails: nat -> bool)
    requires i <= |m.parts|
    ensures MediaFrom(m, i, isFirst, fails) == [] <==> forall k :: i <= k < |m.parts| ==> !m.parts[k].Media?
    decreases |m.parts| - i
  {
    if i < |m.parts| && !m.parts[i].Media? {
      MediaIsEmpty(m, i + 1, isFirst, fails);
    }
  }

  /** The places of the media parts from position i on. */
  function MediaPlaces(m: Message, i: nat): seq<nat>
    requires i <= |m.parts|
    decreases |m.parts| - i
  {
    if i == |m.parts| then [] else (if m.parts[i].Media? then [i] else []) + MediaPlaces(m, i + 1)
  }

  /**
   * The part is made of the media at place k: its ids and status, the full media before the thumbnail,
   * and whether it is still waited for. With named it goes by the id of the media.
   */
  predicate IsMadeOf(p: MessagePart, m: Message, k: nat, fails: nat -> bool, named: bool) {
    && k < |m.parts| && m.parts[k].Media?
    && var media := m.parts[k];
      && p.meta.mediaPartID == media.actionID && p.meta.status == m.status
      && p.meta.mediaID == (if media.mediaID == "" then media.thumbnailID else media.mediaID)
      && (p.meta.mediaPending <==> (media.mediaID == "" && media.thumbnailID == "") || fails(k))
      && p.id == if named then media.actionID else ""
  }

  lemma {:induction false} MediaCount(m: Message, i: nat, isFirst: bool, fails: nat -> bool)
    requires i <= |m.parts|
    ensures |MediaFrom(m, i, isFirst, fails)| == |MediaPlaces(m, i)|
    decreases |m.parts| - i
  {
    if i < |m.parts| {
      MediaCount(m, i + 1, isFirst && !m.parts[i].Media?, fails);
    }
  }

  lemma {:induction false} MediaIs(m: Message, i: nat, isFirst: bool, fails: nat -> bool, j: nat)
    requires i <= |m.parts| && j < |MediaPlaces(m, i)|
    ensures j < |MediaFrom(m, i, isFirst, fails)|
    ensures IsMadeOf(MediaFrom(m, i, isFirst, fails)[j], m, MediaPlaces(m, i)[j], fails, !isFirst || j > 0)
    decreases |m.parts| - i
  {
    if !m.parts[i].Media? {
      MediaIs(m, i + 1, isFirst, fails, j);
    } else if j > 0 {
      MediaIs(m, i + 1, false, fails, j - 1);
    }
  }

  /**
   * A conversion has a part for the text, if there is something to show or a download is pending, and
   * behind it one for every media, in order. The first of all has the empty id, the others that of the media.
   */
  lemma ConvertedAre(sha: string -> string, m: Message, fails: nat -> bool, j: nat)
    ensures var parts, places := Converted(sha, m, fails), MediaPlaces(m, 0);
      var text := if IsBlank(m) && DownloadStatusRank(m.status) == 100 then 0 else 1;
      && |parts| == text + |places|
      && (text == 1 ==> parts[0].id == "" && parts[0].meta.mediaPartID == "")
      && (j < |places| ==> IsMadeOf(parts[text + j], m, places[j], fails, text + j > 0))
  {
    var isFirst := TextPart(sha, m).None?;
    BodyIsBlank(m);
    PendingIsRanked(m.status);
    MediaCount(m, 0, isFirst, fails);
    if j < |MediaPlaces(m, 0)| {
      MediaIs(m, 0, isFirst, fails, j);
    }
  }

  // ----- Comparison -----

  function FindFrom(stored: seq<MessagePart>, actionID: string, i: nat): Option<MessagePart>
    requires i <= |stored|
    decreases |stored| - i
  {
    if i == |stored| then None
    else if stored[i].meta.mediaPartID == actionID then Some(stored[i])
    else FindFrom(stored, actionID, i + 1)
  }

  method FindMediaPart(stored: seq<MessagePart>, actionID: string) returns (found: Option<MessagePart>)
    ensures found == FindFrom(stored, actionID, 0)
  {
    for i := 0 to |stored|
      invariant FindFrom(stored, actionID, 0) == FindFrom(stored, actionID, i)
    {
      if stored[i].meta.mediaPartID == actionID {
        return Some(stored[i]);
      }
    }
    return None;
  }

  predicate MediaChanged(stored: seq<MessagePart>, p: Part) {
    p.Media? &&
    match FindFrom(stored, p.actionID, 0)
    case None => true
    case Some(old') => old'.meta.mediaID != BestMediaID(p)
  }

  predicate WasEdited(sha: string -> string, stored: seq<MessagePart>, m: Message)
    requires stored != []
  {
    || (!stored[0].meta.isOutgoing && exists i :: 0 <= i < |m.parts| && MediaChanged(stored, m.parts[i]))
    || stored[0].meta.textHash != TextHash(sha, m)
  }

  method MessageWasEdited(sha: string -> string, stored: seq<MessagePart>, m: Message) returns (edited: bool)
    requires stored != []
    ensures edited == WasEdited(sha, stored, m)
  {
    edited := false;
    for i := 0 to |m.parts|
      invariant stored[0].meta.isOutgoing ==> !edited
      invariant !stored[0].meta.isOutgoing ==> (edited <==> exists k :: 0 <= k < i && MediaChanged(stored, m.parts[k]))
    {
      if stored[0].meta.isOutgoing {
        break;
      }
      var p := m.parts[i];
      if !p.Media? {
        continue;
      }
      var existing := FindMediaPart(stored, p.actionID);
      var didChange := existing.None? || existing.value.meta.mediaID != BestMediaID(p);
      edited := edited || didChange;
    }
    var _, newTextHash := GetTextPart(sha, m);
    if stored[0].meta.textHash != newTextHash {
      edited := true;
    }
  }

  predicate HasPendingMedia(stored: seq<MessagePart>) {
    exists i :: 0 <= i < |stored| && stored[i].meta.mediaPending
  }

  /** The conditions of doMessageResync apart from a changed chat id. */
  predicate ContentDiffers(sha: string -> string, stored: seq<MessagePart>, m: Message)
    requires stored != []
  {
    || stored[0].meta.mediaStatus != DownloadPendingStatusMessage(m.status)
    || (HasPendingMedia(stored) && !HasInProgressMedia(m))
    || WasEdited(sha, stored, m)
    || stored[0].meta.partCount != |m.parts|
  }

  // ----- Conversion and comparison agree -----

  lemma {:induction false} FindInMedia(m: Message, i: nat, isFirst: bool, fails: nat -> bool, k: nat)
    requires i <= k < |m.parts| && m.parts[k].Media?
    requires forall j :: i <= j < k && m.parts[j].Media? ==> m.parts[j].actionID != m.parts[k].actionID
    ensures var parts := MediaFrom(m, i, isFirst, fails);
      FindFrom(parts, m.parts[k].actionID, 0).Some?
      && FindFrom(parts, m.parts[k].actionID, 0).value.meta.mediaID == BestMediaID(m.parts[k])
    decreases k - i
  {
    if i < k {
      if m.parts[i].Media? {
        FindInMedia(m, i + 1, false, fails, k);
        FindBehind(ConvertedMedia(m, i, isFirst, fails(i)), MediaFrom(m, i + 1, false, fails), m.parts[k].actionID, 0);
      } else {
        FindInMedia(m, i + 1, isFirst, fails, k);
      }
    }
  }

  lemma {:induction false} FindBehind(first: MessagePart, rest: seq<MessagePart>, actionID: string, i: nat)
    requires i <= |rest|
    ensures FindFrom([first] + rest, actionID, i + 1) == FindFrom(rest, actionID, i)
    decreases |rest| - i
  {
    if i < |rest| {
      assert ([first] + rest)[i + 1] == rest[i];
      FindBehind(first, rest, actionID, i + 1);
    }
  }

  lemma {:induction false} FirstWithID(m: Message, i: nat) returns (k: nat)
    requires i < |m.parts| && m.parts[i].Media?
    ensures k <= i && m.parts[k].Media? && m.parts[k].actionID == m.parts[i].actionID
    ensures forall j :: 0 <= j < k && m.parts[j].Media? ==> m.parts[j].actionID != m.parts[k].actionID
  {
    if j :| 0 <= j < i && m.parts[j].Media? && m.parts[j].actionID == m.parts[i].actionID {
      k := FirstWithID(m, j);
    } else {
      k := i;
    }
  }

  predicate SameID(p: Part, q: Part) {
    p.Media? && q.Media? && p.actionID == q.actionID
  }

  /** Media parts with one id agree on the media, and the empty id, which the text part has, names no media. */
  predicate IDsTell(sha: string -> string, m: Message) {
    && (forall i, j :: 0 <= i < j < |m.parts| && SameID(m.parts[i], m.parts[j]) ==>
        BestMediaID(m.parts[i]) == BestMediaID(m.parts[j]))
    && (TextPart(sha, m).Some? ==>
        forall i :: 0 <= i < |m.parts| && m.parts[i].Media? && m.parts[i].actionID == "" ==> BestMediaID(m.parts[i]) == "")
  }

  lemma ChangedAfterConversion(sha: string -> string, m: Message, fails: nat -> bool, i: nat, k: nat)
    requires i < |m.parts| && m.parts[i].Media?
    requires k <= i && m.parts[k].Media? && m.parts[k].actionID == m.parts[i].actionID
    requires forall j :: 0 <= j < k && m.parts[j].Media? ==> m.parts[j].actionID != m.parts[k].actionID
    ensures MediaChanged(Converted(sha, m, fails), m.parts[i]) <==>
      BestMediaID(m.parts[i]) !=
        if TextPart(sha, m).Some? && m.parts[i].actionID == "" then "" else BestMediaID(m.parts[k])
  {
    var text := TextPart(sha, m);
    FindInMedia(m, 0, text.None?, fails, k);
    if text.Some? {
      FindBehind(text.value, MediaFrom(m, 0, false, fails), m.parts[i].actionID, 0);
    }
  }

  /** No media part of a message that was just stored looks changed exactly when its ids tell its media apart. */
  lemma NothingChanged(sha: string -> string, m: Message, fails: nat -> bool)
    ensures (forall i :: 0 <= i < |m.parts| ==> !MediaChanged(Converted(sha, m, fails), m.parts[i])) <==> IDsTell(sha, m)
  {
    var stored := Converted(sha, m, fails);
    if IDsTell(sha, m) {
      forall i | 0 <= i < |m.parts|
        ensures !MediaChanged(stored, m.parts[i])
      {
        if m.parts[i].Media? {
          var k := FirstWithID(m, i);
          ChangedAfterConversion(sha, m, fails, i, k);
        }
      }
    } else {
      var i, j := WhereIDsFail(sha, m);
      var k := FirstWithID(m, i);
      ChangedAfterConversion(sha, m, fails, i, k);
      ChangedAfterConversion(sha, m, fails, j, k);
      assert MediaChanged(stored, m.parts[i]) || MediaChanged(stored, m.parts[j]);
    }
  }

  lemma WhereIDsFail(sha: string -> string, m: Message) returns (i: nat, j: nat)
    requires !IDsTell(sha, m)
    ensures i <= j < |m.parts| && m.parts[i].Media? && m.parts[j].Media? && m.parts[i].actionID == m.parts[j].actionID
    ensures BestMediaID(m.parts[i]) != BestMediaID(m.parts[j]) ||
      (TextPart(sha, m).Some? && m.parts[i].actionID == "" && BestMediaID(m.parts[i]) != "")
  {
    if a, b :| && 0 <= a < b < |m.parts| && SameID(m.parts[a], m.parts[b])
               && BestMediaID(m.parts[a]) != BestMediaID(m.parts[b]) {
      i, j := a, b;
    } else {
      i :| 0 <= i < |m.parts| && m.parts[i].Media? && m.parts[i].actionID == "" && BestMediaID(m.parts[i]) != "";
      j := i;
    }
  }

  lemma {:induction false} PendingInMedia(m: Message, i: nat, isFirst: bool, fails: nat -> bool)
    requires i <= |m.parts|
    ensures HasPendingMedia(MediaFrom(m, i, isFirst, fails)) <==>
      exists k :: i <= k < |m.parts| && m.parts[k].Media? && (InProgress(m.parts[k]) || fails(k))
    decreases |m.parts| - i
  {
    if i < |m.parts| {
      var isFirst' := isFirst && !m.parts[i].Media?;
      PendingInMedia(m, i + 1, isFirst', fails);
      if m.parts[i].Media? {
        PendingBehind(ConvertedMedia(m, i, isFirst, fails(i)), MediaFrom(m, i + 1, false, fails));
      }
    }
  }

  lemma PendingBehind(first: MessagePart, rest: seq<MessagePart>)
    ensures HasPendingMedia([first] + rest) <==> first.meta.mediaPending || HasPendingMedia(rest)
  {
    var all := [first] + rest;
    if first.meta.mediaPending {
      assert all[0].meta.mediaPending;
    }
    if i :| 0 <= i < |rest| && rest[i].meta.mediaPending {
      assert all[i + 1].meta.mediaPending;
    }
    if i :| 0 <= i < |all| && all[i].meta.mediaPending {
      assert i == 0 || rest[i - 1].meta.mediaPending;
    }
  }

  lemma {:induction false} FirstOfMedia(m: Message, i: nat, fails: nat -> bool)
    requires i <= |m.parts| && MediaFrom(m, i, true, fails) != []
    ensures var main := MediaFrom(m, i, true, fails)[0];
      && main.id == "" && !main.meta.isOutgoing && main.meta.textHash == ""
      && main.meta.mediaStatus == DownloadPendingStatusMessage(m.status) && main.meta.partCount == |m.parts|
    decreases |m.parts| - i
  {
    if !m.parts[i].Media? {
      FirstOfMedia(m, i + 1, fails);
    }
  }

  /** The main part of every conversion carries what the comparison looks at. */
  lemma MainOfConversion(sha: string -> string, m: Message, fails: nat -> bool)
    requires Converted(sha, m, fails) != []
    ensures var main := Converted(sha, m, fails)[0];
      && main.id == "" && !main.meta.isOutgoing && main.meta.status == m.status
      && main.meta.textHash == TextHash(sha, m)
      && main.meta.mediaStatus == DownloadPendingStatusMessage(m.status) && main.meta.partCount == |m.parts|
  {
    if TextPart(sha, m).None? {
      FirstOfMedia(m, 0, fails);
      StatusOfMedia(m, 0, true, fails);
    }
  }

  lemma {:induction false} StatusOfMedia(m: Message, i: nat, isFirst: bool, fails: nat -> bool)
    requires i <= |m.parts|
    ensures forall p :: p in MediaFrom(m, i, isFirst, fails) ==> p.meta.status == m.status
    decreases |m.parts| - i
  {
    if i < |m.parts| {
      StatusOfMedia(m, i + 1, isFirst && !m.parts[i].Media?, fails);
    }
  }

  /**
   * When the message that was just stored arrives again, its content is taken for changed exactly
   * when its ids do not tell its media apart, or a transfer failed and no media is still on its way.
   */
  lemma ConversionAgreesWithComparison(sha: string -> string, m: Message, fails: nat -> bool)
    requires Converted(sha, m, fails) != []
    ensures ContentDiffers(sha, Converted(sha, m, fails), m) <==>
      || !IDsTell(sha, m)
      || (!HasInProgressMedia(m) && exists k :: 0 <= k < |m.parts| && m.parts[k].Media? && fails(k))
  {
    var stored := Converted(sha, m, fails);
    MainOfConversion(sha, m, fails);
    NothingChanged(sha, m, fails);
    PendingInMedia(m, 0, TextPart(sha, m).None?, fails);
    if TextPart(sha, m).Some? {
      PendingBehind(TextPart(sha, m).value, MediaFrom(m, 0, false, fails));
    }
    assert HasPendingMedia(stored) <==>
      exists k :: 0 <= k < |m.parts| && m.parts[k].Media? && (InProgress(m.parts[k]) || fails(k));
  }

  predicate IDsDistinct(m: Message) {
    && (forall i, j :: 0 <= i < j < |m.parts| ==> !SameID(m.parts[i], m.parts[j]))
    && (forall i :: 0 <= i < |m.parts| && m.parts[i].Media? ==> m.parts[i].actionID != "")
  }

  predicate NoFailure(i: nat) {
    false
  }

  /** With distinct, non-empty part ids and no failed transfer there is nothing to do. */
  lemma RepeatIsNoEdit(sha: string -> string, m: Message)
    requires IDsDistinct(m) && Converted(sha, m, NoFailure) != []
    ensures !ContentDiffers(sha, Converted(sha, m, NoFailure), m)
  {
    ConversionAgreesWithComparison(sha, m, NoFailure);
  }

  /**
   * The other half of the comparison: a change that can be seen is seen. When a media part carries
   * another media id than the stored one of its part id, or the text hashes differently, the message
   * is resynced, whatever else is the same.
   */
  lemma ChangesAreSeen(sha: string -> string, before: Message, now: Message, fails: nat -> bool, i: nat, k: nat)
    requires Converted(sha, before, fails) != [] && IDsTell(sha, before)
    requires i < |now.parts| && now.parts[i].Media? && now.parts[i].actionID != ""
    requires k < |before.parts| && before.parts[k].Media? && before.parts[k].actionID == now.parts[i].actionID
    ensures MediaChanged(Converted(sha, before, fails), now.parts[i]) <==>
      BestMediaID(now.parts[i]) != BestMediaID(before.parts[k])
    ensures TextHash(sha, now) != TextHash(sha, before) || BestMediaID(now.parts[i]) != BestMediaID(before.parts[k]) ==>
      ContentDiffers(sha, Converted(sha, before, fails), now)
  {
    MainOfConversion(sha, before, fails);
    var first := FirstWithID(before, k);
    assert BestMediaID(before.parts[first]) == BestMediaID(before.parts[k]);
    var text := TextPart(sha, before);
    FindInMedia(before, 0, text.None?, fails, first);
    if text.Some? {
      FindBehind(text.value, MediaFrom(before, 0, false, fails), now.parts[i].actionID, 0);
    }
  }

  lemma {:induction false} NotInMedia(m: Message, i: nat, isFirst: bool, fails: nat -> bool, actionID: string)
    requires i <= |m.parts|
    requires forall k :: i <= k < |m.parts| && m.parts[k].Media? ==> m.parts[k].actionID != actionID
    ensures FindFrom(MediaFrom(m, i, isFirst, fails), actionID, 0) == None
    decreases |m.parts| - i
  {
    if i < |m.parts| {
      NotInMedia(m, i + 1, isFirst && !m.parts[i].Media?, fails, actionID);
      if m.parts[i].Media? {
        FindBehind(ConvertedMedia(m, i, isFirst, fails(i)), MediaFrom(m, i + 1, false, fails), actionID, 0);
      }
    }
  }

  /** Place k holds the first media of its id. */
  predicate IsFirstOfID(m: Message, k: nat) {
    && k < |m.parts| && m.parts[k].Media?
    && forall j :: 0 <= j < k ==> !SameID(m.parts[j], m.parts[k])
  }

  /** The message has the same media under the same id, as far as an id tells media apart. */
  ghost predicate HasMedia(m: Message, p: Part)
    requires p.Media?
  {
    exists k: nat :: IsFirstOfID(m, k) && m.parts[k].actionID == p.actionID && BestMediaID(m.parts[k]) == BestMediaID(p)
  }

  /** The media was not there before. The row of the text has the empty media id under the empty part id. */
  ghost predicate IsNewMedia(before: Message, p: Part) {
    p.Media? &&
    if p.actionID == "" && !(IsBlank(before) && DownloadStatusRank(before.status) == 100) then BestMediaID(p) != ""
    else !HasMedia(before, p)
  }

  lemma FirstIsUnique(m: Message, k: nat)
    requires IsFirstOfID(m, k)
    ensures forall j: nat :: IsFirstOfID(m, j) && m.parts[j].actionID == m.parts[k].actionID ==> j == k
  {
    assert forall j: nat :: IsFirstOfID(m, j) && k < j ==> !SameID(m.parts[k], m.parts[j]);
  }

  /** What the conversion has under an id that the empty row of a text does not hide. */
  lemma FoundInConversion(sha: string -> string, before: Message, fails: nat -> bool, p: Part)
    requires p.Media? && (TextPart(sha, before).Some? ==> p.actionID != "")
    ensures var found := FindFrom(Converted(sha, before, fails), p.actionID, 0);
      found.Some? && found.value.meta.mediaID == BestMediaID(p) <==> HasMedia(before, p)
  {
    var text := TextPart(sha, before);
    if text.Some? {
      FindBehind(text.value, MediaFrom(before, 0, false, fails), p.actionID, 0);
    }
    if i :| 0 <= i < |before.parts| && before.parts[i].Media? && before.parts[i].actionID == p.actionID {
      var k := FirstWithID(before, i);
      FindInMedia(before, 0, text.None?, fails, k);
      assert IsFirstOfID(before, k);
      FirstIsUnique(before, k);
    } else {
      NotInMedia(before, 0, text.None?, fails, p.actionID);
    }
  }

  lemma MediaChangedMeansNew(sha: string -> string, before: Message, fails: nat -> bool, p: Part)
    ensures MediaChanged(Converted(sha, before, fails), p) <==> IsNewMedia(before, p)
  {
    BodyIsBlank(before);
    PendingIsRanked(before.status);
    if p.Media? && (TextPart(sha, before).None? || p.actionID != "") {
      FoundInConversion(sha, before, fails, p);
    }
  }

  /** A media whose transfer failed, or that was on its way. */
  predicate WasWaitedFor(m: Message, fails: nat -> bool, k: nat)
    requires k < |m.parts|
  {
    m.parts[k].Media? && ((m.parts[k].mediaID == "" && m.parts[k].thumbnailID == "") || fails(k))
  }

  /** Of every media there is at least a thumbnail. */
  predicate AllHere(m: Message) {
    forall i :: 0 <= i < |m.parts| && m.parts[i].Media? ==> m.parts[i].mediaID != "" || m.parts[i].thumbnailID != ""
  }

  function Unflagged(p: MessagePart): MessagePart {
    p.(meta := p.meta.(isOutgoing := false, mssSent := false, mssFailSent := false, mssDeliverySent := false,
                       readReceiptSent := false))
  }

  /** The rows hold the conversion of the message, whoever sent it and whatever was told of it since. */
  ghost predicate AreRowsOf(sha: string -> string, stored: seq<MessagePart>, m: Message, fails: nat -> bool) {
    stored != [] && stored[0 := Unflagged(stored[0])] == Converted(sha, m, fails)
  }

  lemma {:induction false} FindUnflagged(stored: seq<MessagePart>, actionID: string, i: nat)
    requires stored != [] && i <= |stored|
    ensures var found := FindFrom(stored, actionID, i);
      var same := FindFrom(stored[0 := Unflagged(stored[0])], actionID, i);
      && (found.Some? <==> same.Some?) && (found.Some? ==> found.value.meta.mediaID == same.value.meta.mediaID)
    decreases |stored| - i
  {
    if i < |stored| {
      FindUnflagged(stored, actionID, i + 1);
    }
  }

  lemma PendingUnflagged(stored: seq<MessagePart>)
    requires stored != []
    ensures HasPendingMedia(stored) <==> HasPendingMedia(stored[0 := Unflagged(stored[0])])
  {
    var plain := stored[0 := Unflagged(stored[0])];
    assert forall i :: 0 <= i < |stored| ==> stored[i].meta.mediaPending == plain[i].meta.mediaPending;
  }

  /**
   * What the comparison sees, in terms of the two messages: when another message arrives in the place
   * of the stored one, its content is taken for changed exactly when the text for a pending download
   * changed, the number of parts changed, the title or a text changed, a media of an incoming message
   * is new, or the last of the awaited media is there.
   */
  lemma ComparisonSeesExactly(
    sha: string -> string, stored: seq<MessagePart>, before: Message, now: Message, fails: nat -> bool)
    requires AreRowsOf(sha, stored, before, fails)
    requires HasNoZeros(before) && HasNoZeros(now) && HashesTell(sha, before, now)
    ensures ContentDiffers(sha, stored, now) <==>
      || DownloadPendingStatusMessage(before.status) != DownloadPendingStatusMessage(now.status)
      || |before.parts| != |now.parts|
      || (!(IsBlank(before) && IsBlank(now)) && (before.subject != now.subject || TextsOf(before) != TextsOf(now)))
      || (!stored[0].meta.isOutgoing && exists i :: 0 <= i < |now.parts| && IsNewMedia(before, now.parts[i]))
      || (AllHere(now) && exists k :: 0 <= k < |before.parts| && WasWaitedFor(before, fails, k))
  {
    MainOfConversion(sha, before, fails);
    TextHashTells(sha, before, now);
    PendingInConverted(sha, before, fails);
    PendingUnflagged(stored);
    assert AllHere(now) <==> !HasInProgressMedia(now) by {
      assert forall i :: 0 <= i < |now.parts| ==>
        (InProgress(now.parts[i]) <==> now.parts[i].Media? && now.parts[i].mediaID == "" && now.parts[i].thumbnailID == "");
    }
    forall i | 0 <= i < |now.parts|
      ensures MediaChanged(stored, now.parts[i]) <==> IsNewMedia(before, now.parts[i])
    {
      MediaChangedMeansNew(sha, before, fails, now.parts[i]);
      if now.parts[i].Media? {
        FindUnflagged(stored, now.parts[i].actionID, 0);
      }
    }
    assert WasEdited(sha, stored, now) <==>
      || (!stored[0].meta.isOutgoing && exists i :: 0 <= i < |now.parts| && IsNewMedia(before, now.parts[i]))
      || TextHash(sha, before) != TextHash(sha, now);
  }

  lemma PendingInConverted(sha: string -> string, m: Message, fails: nat -> bool)
    ensures HasPendingMedia(Converted(sha, m, fails)) <==> exists k :: 0 <= k < |m.parts| && WasWaitedFor(m, fails, k)
  {
    PendingInMedia(m, 0, TextPart(sha, m).None?, fails);
    if TextPart(sha, m).Some? {
      PendingBehind(TextPart(sha, m).value, MediaFrom(m, 0, false, fails));
    }
    if k :| 0 <= k < |m.parts| && WasWaitedFor(m, fails, k) {
      assert m.parts[k].Media? && (InProgress(m.parts[k]) || fails(k));
    }
    if k :| 0 <= k < |m.parts| && m.parts[k].Media? && (InProgress(m.parts[k]) || fails(k)) {
      assert WasWaitedFor(m, fails, k);
    }
  }

  /** Whenever the title or any text of a message with something to show changes, the message is resynced. */
  lemma TextEditIsSeen(
    sha: string -> string, stored: seq<MessagePart>, before: Message, now: Message, fails: nat -> bool)
    requires AreRowsOf(sha, stored, before, fails)
    requires HasNoZeros(before) && HasNoZeros(now) && HashesTell(sha, before, now)
    requires !IsBlank(before) && (before.subject != now.subject || TextsOf(before) != TextsOf(now))
    ensures WasEdited(sha, stored, now)
  {
    MainOfConversion(sha, before, fails);
    TextHashTells(sha, before, now);
  }

  // ----- Where they do not agree -----

  /** Two media under one id: the message looks changed as soon as it is stored. */
  lemma SharedIDLooksChanged(sha: string -> string, m: Message)
    requires m == Message("", [Media("a", "x", ""), Media("a", "y", "")], OUTGOING_COMPLETE, 0)
    ensures Converted(sha, m, NoFailure) != [] && ContentDiffers(sha, Converted(sha, m, NoFailure), m)
  {
    ConvertedIsEmpty(sha, m, NoFailure);
    assert m.parts[0].Media? && SameID(m.parts[0], m.parts[1]);
    ConversionAgreesWithComparison(sha, m, NoFailure);
  }

  /** A failed transfer: the message looks changed until the transfer succeeds. */
  lemma FailedTransferLooksChanged(sha: string -> string, m: Message)
    requires m == Message("", [Media("a", "x", "")], OUTGOING_COMPLETE, 0)
    ensures Converted(sha, m, i => true) != [] && ContentDiffers(sha, Converted(sha, m, i => true), m)
  {
    ConvertedIsEmpty(sha, m, i => true);
    assert m.parts[0].Media? && (i => true)(0);
    ConversionAgreesWithComparison(sha, m, i => true);
  }
}

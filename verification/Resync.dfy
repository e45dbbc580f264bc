/**
 * The loop of comparison, conversion and edit: a message that was resynced arrives again
 * (HandleExisting and ConvertEdit in pkg/connector/handlegmessages.go).
 */
module Resync {
  import opened Basics
  import opened Messages
  import opened Reconcile
  import opened Edits

  predicate IsPartOf(p: MessagePart, media: Part) {
    media.Media? && media.actionID == p.meta.mediaPartID
  }

  /** p was made of a media part from position i on, and waits for it if it is on its way or failed. */
  predicate MadeOf(m: Message, i: nat, fails: nat -> bool, p: MessagePart) {
    exists k :: i <= k < |m.parts| && MadeAt(m, k, fails, p)
  }

  predicate MadeAt(m: Message, k: nat, fails: nat -> bool, p: MessagePart)
    requires k < |m.parts|
  {
    IsPartOf(p, m.parts[k]) && p.meta.mediaPending == (InProgress(m.parts[k]) || fails(k))
  }

  predicate DistinctMedia(parts: seq<MessagePart>) {
    forall i, j :: 0 <= i < j < |parts| ==> parts[i].meta.mediaPartID != parts[j].meta.mediaPartID
  }

  lemma MadeOfLater(m: Message, i: nat, fails: nat -> bool, p: MessagePart)
    requires IDsDistinct(m) && i < |m.parts| && m.parts[i].Media? && MadeOf(m, i + 1, fails, p)
    ensures MadeOf(m, i, fails, p) && p.meta.mediaPartID !in {"", m.parts[i].actionID}
  {
    var k :| i + 1 <= k < |m.parts| && MadeAt(m, k, fails, p);
    assert !SameID(m.parts[i], m.parts[k]);
  }

  lemma {:induction false} MediaIDs(m: Message, i: nat, isFirst: bool, fails: nat -> bool)
    requires i <= |m.parts| && IDsDistinct(m)
    ensures var parts := MediaFrom(m, i, isFirst, fails);
      && DistinctIDs(parts) && DistinctMedia(parts)
      && (forall c :: 0 <= c < |parts| ==> MadeOf(m, i, fails, parts[c]))
      && (forall c :: 0 <= c < |parts| ==> parts[c].id == if isFirst && c == 0 then "" else parts[c].meta.mediaPartID)
    decreases |m.parts| - i
  {
    if i < |m.parts| {
      var parts := MediaFrom(m, i, isFirst, fails);
      if m.parts[i].Media? {
        var rest := MediaFrom(m, i + 1, false, fails);
        MediaIDs(m, i + 1, false, fails);
        forall c | 0 <= c < |rest|
          ensures MadeOf(m, i, fails, rest[c]) && rest[c].meta.mediaPartID !in {"", m.parts[i].actionID}
        {
          MadeOfLater(m, i, fails, rest[c]);
        }
        assert MadeAt(m, i, fails, parts[0]);
      } else {
        MediaIDs(m, i + 1, isFirst, fails);
      }
    }
  }

  /** Distinct ids of the media give distinct ids of the parts; every part behind the main one is made of a media. */
  lemma ConvertedIDs(sha: string -> string, m: Message, fails: nat -> bool)
    requires IDsDistinct(m)
    ensures var parts := Converted(sha, m, fails);
      && DistinctIDs(parts) && DistinctMedia(parts)
      && (forall c :: 0 <= c < |parts| ==> MadeOf(m, 0, fails, parts[c]) || (c == 0 && IsText(parts[0])))
  {
    MediaIDs(m, 0, TextPart(sha, m).None?, fails);
    var media := MediaFrom(m, 0, TextPart(sha, m).None?, fails);
    forall c | 0 <= c < |media|
      ensures media[c].meta.mediaPartID != ""
    {
      assert MadeOf(m, 0, fails, media[c]);
    }
  }

  predicate IsText(p: MessagePart) {
    p.meta.mediaPartID == "" && !p.meta.mediaPending
  }

  lemma {:induction false} FindFromIs(stored: seq<MessagePart>, actionID: string, i: nat)
    requires i <= |stored|
    ensures match FindFrom(stored, actionID, i)
      case None => forall k :: i <= k < |stored| ==> stored[k].meta.mediaPartID != actionID
      case Some(p) => p in stored && p.meta.mediaPartID == actionID
    decreases |stored| - i
  {
    if i < |stored| {
      FindFromIs(stored, actionID, i + 1);
    }
  }

  /** existing was resynced with m, and the edit was stored. */
  ghost predicate Resynced(
    sha: string -> string, existing: seq<MessagePart>, m: Message, fails: nat -> bool, ctx: Context, edit: Edit) {
    && existing != [] && existing[0].id == "" && DistinctIDs(existing)
    && Converted(sha, m, fails) != []
    && EditOf(existing, Carried(existing, Converted(sha, m, fails)), ctx, edit)
  }

  /** Part c of the conversion is too old to be added to what is stored. */
  predicate IsLost(sha: string -> string, existing: seq<MessagePart>, m: Message, fails: nat -> bool, ctx: Context, c: nat)
    requires existing != [] && c < |Converted(sha, m, fails)|
  {
    IsDropped(existing, Carried(existing, Converted(sha, m, fails)), ctx, c)
  }

  lemma LostMeansDrop(
    sha: string -> string, existing: seq<MessagePart>, m: Message, fails: nat -> bool, ctx: Context, c: nat)
    requires existing != [] && c < |Converted(sha, m, fails)|
    ensures IsLost(sha, existing, m, fails, ctx, c) <==>
      FateOf(existing, Carried(existing, Converted(sha, m, fails)), ctx, c) == Drop
  {
    DropMeansDropped(existing, Carried(existing, Converted(sha, m, fails)), ctx, c);
  }

  /** The converted part of media part k is stored if it was not lost, and nothing else has its media id. */
  lemma StoredMedia(sha: string -> string, existing: seq<MessagePart>, m: Message, fails: nat -> bool, ctx: Context,
                    edit: Edit, k: nat)
      returns (c: nat)
    requires IDsDistinct(m) && Resynced(sha, existing, m, fails, ctx, edit)
    requires k < |m.parts| && m.parts[k].Media?
    ensures c < |Converted(sha, m, fails)| && IsPartOf(Converted(sha, m, fails)[c], m.parts[k])
    ensures MediaChanged(Stored(existing, edit), m.parts[k]) <==> IsLost(sha, existing, m, fails, ctx, c)
  {
    var parts := Converted(sha, m, fails);
    var carried, stored := Carried(existing, parts), Stored(existing, edit);
    var actionID := m.parts[k].actionID;
    ConvertedIDs(sha, m, fails);
    MainOfConversion(sha, m, fails);
    StoredIsConverted(existing, carried, ctx, edit);
    FindInConverted(sha, m, fails, k);
    FindFromIs(parts, actionID, 0);
    c :| 0 <= c < |parts| && parts[c] == FindFrom(parts, actionID, 0).value;
    LostMeansDrop(sha, existing, m, fails, ctx, c);
    FindFromIs(stored, actionID, 0);
    match FindFrom(stored, actionID, 0)
    case Some(p) =>
      assert p in carried;
      var d :| 0 <= d < |carried| && carried[d] == p;
      assert parts[d].meta.mediaPartID == actionID;
      assert d == c;
    case None =>
      assert carried[c] !in stored;
  }

  lemma FindInConverted(sha: string -> string, m: Message, fails: nat -> bool, k: nat)
    requires IDsDistinct(m) && k < |m.parts| && m.parts[k].Media?
    ensures var found := FindFrom(Converted(sha, m, fails), m.parts[k].actionID, 0);
      found.Some? && found.value.meta.mediaID == BestMediaID(m.parts[k])
  {
    forall j | 0 <= j < k && m.parts[j].Media?
      ensures m.parts[j].actionID != m.parts[k].actionID
    {
      assert !SameID(m.parts[j], m.parts[k]);
    }
    FindInMedia(m, 0, TextPart(sha, m).None?, fails, k);
    if TextPart(sha, m).Some? {
      FindBehind(TextPart(sha, m).value, MediaFrom(m, 0, false, fails), m.parts[k].actionID, 0);
    }
  }

  /** The main part is never lost, so a lost part is the part of some media. */
  lemma LostIsMedia(sha: string -> string, existing: seq<MessagePart>, m: Message, fails: nat -> bool, ctx: Context,
                    edit: Edit, c: nat)
      returns (k: nat)
    requires IDsDistinct(m) && Resynced(sha, existing, m, fails, ctx, edit)
    requires c < |Converted(sha, m, fails)| && IsLost(sha, existing, m, fails, ctx, c)
    ensures k < |m.parts| && MediaChanged(Stored(existing, edit), m.parts[k])
  {
    var parts := Converted(sha, m, fails);
    ConvertedIDs(sha, m, fails);
    MainOfConversion(sha, m, fails);
    assert IsStoredID(existing, "");
    assert !IsDropped(existing, Carried(existing, parts), ctx, 0);
    assert MadeOf(m, 0, fails, parts[c]);
    k :| 0 <= k < |m.parts| && MadeAt(m, k, fails, parts[c]);
    var d := StoredMedia(sha, existing, m, fails, ctx, edit, k);
    assert parts[d].meta.mediaPartID == parts[c].meta.mediaPartID;
    assert c == d;
  }

  /** The transfer of the media that part c was made of failed, and the part is stored all the same. */
  predicate FailedAndStored(
    sha: string -> string, existing: seq<MessagePart>, m: Message, fails: nat -> bool, ctx: Context, c: nat)
    requires existing != [] && c < |Converted(sha, m, fails)|
  {
    && !IsLost(sha, existing, m, fails, ctx, c)
    && exists k :: 0 <= k < |m.parts| && IsPartOf(Converted(sha, m, fails)[c], m.parts[k]) && fails(k)
  }

  lemma PendingMeans(sha: string -> string, m: Message, fails: nat -> bool, c: nat)
    requires IDsDistinct(m) && !HasInProgressMedia(m) && c < |Converted(sha, m, fails)|
    ensures Converted(sha, m, fails)[c].meta.mediaPending <==>
      exists k :: 0 <= k < |m.parts| && IsPartOf(Converted(sha, m, fails)[c], m.parts[k]) && fails(k)
  {
    var p := Converted(sha, m, fails)[c];
    ConvertedIDs(sha, m, fails);
    if MadeOf(m, 0, fails, p) {
      var k :| 0 <= k < |m.parts| && MadeAt(m, k, fails, p);
      forall j | 0 <= j < |m.parts| && IsPartOf(p, m.parts[j])
        ensures j == k
      {
        assert j < k ==> !SameID(m.parts[j], m.parts[k]);
        assert k < j ==> !SameID(m.parts[k], m.parts[j]);
      }
    }
  }

  lemma PendingIsStored(
    sha: string -> string, existing: seq<MessagePart>, m: Message, fails: nat -> bool, ctx: Context, edit: Edit)
    requires IDsDistinct(m) && Resynced(sha, existing, m, fails, ctx, edit)
    ensures HasPendingMedia(Stored(existing, edit)) <==>
      exists c :: 0 <= c < |Converted(sha, m, fails)|
        && Converted(sha, m, fails)[c].meta.mediaPending && !IsLost(sha, existing, m, fails, ctx, c)
  {
    var parts := Converted(sha, m, fails);
    var carried, stored := Carried(existing, parts), Stored(existing, edit);
    ConvertedIDs(sha, m, fails);
    MainOfConversion(sha, m, fails);
    StoredIsConverted(existing, carried, ctx, edit);
    if s :| 0 <= s < |stored| && stored[s].meta.mediaPending {
      assert stored[s] in carried;
      var c :| 0 <= c < |carried| && carried[c] == stored[s];
      LostMeansDrop(sha, existing, m, fails, ctx, c);
      assert parts[c].meta.mediaPending;
    }
    if c :| 0 <= c < |parts| && parts[c].meta.mediaPending && !IsLost(sha, existing, m, fails, ctx, c) {
      LostMeansDrop(sha, existing, m, fails, ctx, c);
      assert carried[c] in stored && carried[c].meta.mediaPending;
    }
  }

  lemma WaitsForFailure(
    sha: string -> string, existing: seq<MessagePart>, m: Message, fails: nat -> bool, ctx: Context, edit: Edit)
    requires IDsDistinct(m) && Resynced(sha, existing, m, fails, ctx, edit) && !HasInProgressMedia(m)
    ensures HasPendingMedia(Stored(existing, edit)) <==>
      exists c :: 0 <= c < |Converted(sha, m, fails)| && FailedAndStored(sha, existing, m, fails, ctx, c)
  {
    PendingIsStored(sha, existing, m, fails, ctx, edit);
    forall c | 0 <= c < |Converted(sha, m, fails)|
      ensures FailedAndStored(sha, existing, m, fails, ctx, c) <==>
        Converted(sha, m, fails)[c].meta.mediaPending && !IsLost(sha, existing, m, fails, ctx, c)
    {
      PendingMeans(sha, m, fails, c);
    }
  }

  lemma LostIsSeen(
    sha: string -> string, existing: seq<MessagePart>, m: Message, fails: nat -> bool, ctx: Context, edit: Edit)
    requires IDsDistinct(m) && Resynced(sha, existing, m, fails, ctx, edit)
    ensures (exists k :: 0 <= k < |m.parts| && MediaChanged(Stored(existing, edit), m.parts[k])) <==>
      exists c :: 0 <= c < |Converted(sha, m, fails)| && IsLost(sha, existing, m, fails, ctx, c)
  {
    if c :| 0 <= c < |Converted(sha, m, fails)| && IsLost(sha, existing, m, fails, ctx, c) {
      var k := LostIsMedia(sha, existing, m, fails, ctx, edit, c);
      assert MediaChanged(Stored(existing, edit), m.parts[k]);
    }
    if k :| 0 <= k < |m.parts| && MediaChanged(Stored(existing, edit), m.parts[k]) {
      var c := StoredMedia(sha, existing, m, fails, ctx, edit, k);
      assert IsLost(sha, existing, m, fails, ctx, c);
    }
  }

  /**
   * A resync settles the message: when the same message arrives again, its content is taken for
   * changed exactly when the message is incoming and a part was too old to be added, or a part is
   * stored whose transfer failed while no media is on its way. Old messages with a new attachment are
   * therefore resynced by every update that follows.
   */
  lemma EditSettles(
    sha: string -> string, existing: seq<MessagePart>, m: Message, fails: nat -> bool, ctx: Context, edit: Edit)
    requires IDsDistinct(m) && Resynced(sha, existing, m, fails, ctx, edit)
    ensures Stored(existing, edit) != []
    ensures ContentDiffers(sha, Stored(existing, edit), m) <==>
      || (!existing[0].meta.isOutgoing
          && exists c :: 0 <= c < |Converted(sha, m, fails)| && IsLost(sha, existing, m, fails, ctx, c))
      || (!HasInProgressMedia(m)
          && exists c :: 0 <= c < |Converted(sha, m, fails)| && FailedAndStored(sha, existing, m, fails, ctx, c))
  {
    ConvertedIDs(sha, m, fails);
    MainOfConversion(sha, m, fails);
    StoredIsConverted(existing, Carried(existing, Converted(sha, m, fails)), ctx, edit);
    LostIsSeen(sha, existing, m, fails, ctx, edit);
    if !HasInProgressMedia(m) {
      WaitsForFailure(sha, existing, m, fails, ctx, edit);
    }
  }

  /** The rows are the parts, each once, and the main row is the main part. */
  ghost predicate HoldsExactly(stored: seq<MessagePart>, parts: seq<MessagePart>) {
    && stored != [] && parts != [] && stored[0] == parts[0]
    && DistinctIDs(stored) && forall p :: p in stored <==> p in parts
  }

  /**
   * When no part can be too old, because the message came from another chat or is less than 24 hours
   * old all the while, and no transfer fails, the rows become the converted parts, all of them, and
   * the message settles.
   */
  lemma TimelyEditSettles(
    sha: string -> string, existing: seq<MessagePart>, m: Message, fails: nat -> bool, ctx: Context, edit: Edit)
    requires IDsDistinct(m) && Resynced(sha, existing, m, fails, ctx, edit)
    requires ctx.chatIDChanged || forall i :: ctx.now(i) - ctx.timestamp < 86_400_000_000
    requires forall k :: 0 <= k < |m.parts| ==> !fails(k)
    ensures Stored(existing, edit) != [] && !ContentDiffers(sha, Stored(existing, edit), m)
    ensures HoldsExactly(Stored(existing, edit), Carried(existing, Converted(sha, m, fails)))
  {
    var carried, stored := Carried(existing, Converted(sha, m, fails)), Stored(existing, edit);
    ConvertedIDs(sha, m, fails);
    MainOfConversion(sha, m, fails);
    StoredIsConverted(existing, carried, ctx, edit);
    EditSettles(sha, existing, m, fails, ctx, edit);
    forall c | 0 <= c < |carried|
      ensures !IsDropped(existing, carried, ctx, c) && carried[c] in stored
    {
      assert ctx.chatIDChanged || ctx.now(c) - ctx.timestamp < 86_400_000_000;
      DropMeansDropped(existing, carried, ctx, c);
    }
  }

  /** A text message that gains a picture within a day, or in another chat: the picture is stored. */
  lemma TimelyAttachmentIsStored(sha: string -> string, existing: seq<MessagePart>, m: Message, ctx: Context)
      returns (edit: Edit)
    requires existing == Converted(sha, Message("hi", [], OUTGOING_COMPLETE, 0), NoFailure)
    requires m == Message("hi", [Media("a", "x", "")], OUTGOING_COMPLETE, 0)
    requires ctx.timestamp == 0 && (ctx.chatIDChanged || forall i :: ctx.now(i) < 86_400_000_000)
    ensures IDsDistinct(m) && Resynced(sha, existing, m, NoFailure, ctx, edit)
    ensures exists p :: p in edit.added && p in Stored(existing, edit) && p.id == "a" && p.meta.mediaID == "x"
    ensures Stored(existing, edit) != [] && !ContentDiffers(sha, Stored(existing, edit), m)
  {
    var parts := Converted(sha, m, NoFailure);
    TextGainsPicture(sha, existing, m);
    var carried := Carried(existing, parts);
    edit := EditExists(existing, carried, ctx);
    assert ctx.chatIDChanged || forall i :: ctx.now(i) - ctx.timestamp < 86_400_000_000;
    TimelyEditSettles(sha, existing, m, NoFailure, ctx, edit);
    AddedExactly(existing, carried, ctx, edit, 1);
    assert carried[1] in edit.added && carried[1] in Stored(existing, edit);
  }

  lemma TextGainsPicture(sha: string -> string, existing: seq<MessagePart>, m: Message)
    requires existing == Converted(sha, Message("hi", [], OUTGOING_COMPLETE, 0), NoFailure)
    requires m == Message("hi", [Media("a", "x", "")], OUTGOING_COMPLETE, 0)
    ensures |existing| == 1 && existing[0].id == "" && !existing[0].meta.isOutgoing
    ensures var parts := Converted(sha, m, NoFailure);
      |parts| == 2 && parts[0].id == "" && parts[1].id == "a" && parts[1].meta.mediaID == "x"
  {
    TitleIsText(sha, m);
    TitleIsText(sha, Message("hi", [], OUTGOING_COMPLETE, 0));
    MainOfConversion(sha, Message("hi", [], OUTGOING_COMPLETE, 0), NoFailure);
    assert MediaFrom(m, 1, false, NoFailure) == [];
    assert MediaFrom(m, 0, false, NoFailure) == [ConvertedMedia(m, 0, false, NoFailure(0))];
  }

  /** A day-old text message that gains a picture: the edit drops it, and the message never settles. */
  lemma LateAttachmentResyncs(sha: string -> string, existing: seq<MessagePart>, m: Message, ctx: Context)
      returns (edit: Edit)
    requires existing == Converted(sha, Message("hi", [], OUTGOING_COMPLETE, 0), NoFailure)
    requires m == Message("hi", [Media("a", "x", "")], OUTGOING_COMPLETE, 0)
    requires ctx.timestamp == 0 && !ctx.chatIDChanged && forall i :: ctx.now(i) >= 86_400_000_000
    ensures IDsDistinct(m) && Resynced(sha, existing, m, NoFailure, ctx, edit)
    ensures Stored(existing, edit) != [] && ContentDiffers(sha, Stored(existing, edit), m)
  {
    var parts := Converted(sha, m, NoFailure);
    TextGainsPicture(sha, existing, m);
    edit := EditExists(existing, Carried(existing, parts), ctx);
    assert !ctx.MayAdd(1) && !IsStoredID(existing, "a");
    assert IsLost(sha, existing, m, NoFailure, ctx, 1);
    EditSettles(sha, existing, m, NoFailure, ctx, edit);
  }
}

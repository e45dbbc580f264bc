/**
 * Turning a changed message into an edit of its stored parts (ConvertEdit in
 * pkg/connector/handlegmessages.go). The converted parts live in one array: the parts to add are
 * collected at the front of the array while the loop still reads the rest of it.
 */
module Edits {
  import opened Basics
  import opened Messages
  import opened Reconcile

  /** MaxDelayForNewMessagePart in microseconds. */
  const MAX_DELAY_FOR_NEW_MESSAGE_PART := 86_400_000_000

  datatype EditPart = EditPart(existing: MessagePart, part: MessagePart)

  /** What the edit depends on besides the parts; now(i) is the clock when part i is reached. */
  datatype Context = Context(chatIDChanged: bool, timestamp: int, now: nat -> int) {
    predicate MayAdd(i: nat) {
      chatIDChanged || now(i) - timestamp < MAX_DELAY_FOR_NEW_MESSAGE_PART
    }
  }

  datatype Edit = Edit(modified: seq<EditPart>, added: seq<MessagePart>, deleted: map<string, MessagePart>)

  function CarryFlags(from: Metadata, to: Metadata): Metadata {
    to.(isOutgoing := from.isOutgoing, mssSent := from.mssSent, mssFailSent := from.mssFailSent,
        mssDeliverySent := from.mssDeliverySent, readReceiptSent := from.readReceiptSent)
  }

  /** The converted parts with the one-shot flags of the stored main part. */
  function Carried(existing: seq<MessagePart>, parts: seq<MessagePart>): (carried: seq<MessagePart>)
    requires existing != [] && parts != []
  {
    parts[0 := parts[0].(meta := CarryFlags(existing[0].meta, parts[0].meta))]
  }

  function PartsByID(existing: seq<MessagePart>): map<string, MessagePart> {
    if existing == [] then map[]
    else PartsByID(existing[..|existing| - 1])[existing[|existing| - 1].id := existing[|existing| - 1]]
  }

  // ----- The fate of each converted part -----

  datatype Fate = Modify | Add | Drop

  /** The first part with a stored id replaces the stored part; any other part is new. */
  predicate Matches(existing: seq<MessagePart>, parts: seq<MessagePart>, i: nat)
    requires i < |parts|
  {
    parts[i].id in PartsByID(existing) && forall j :: 0 <= j < i ==> parts[j].id != parts[i].id
  }

  function FateOf(existing: seq<MessagePart>, parts: seq<MessagePart>, ctx: Context, i: nat): Fate
    requires i < |parts|
  {
    if Matches(existing, parts, i) then Modify else if ctx.MayAdd(i) then Add else Drop
  }

  /** Those of the first n parts that meet the fate. */
  function WithFate(existing: seq<MessagePart>, parts: seq<MessagePart>, ctx: Context, fate: Fate, n: nat):
    (picked: seq<MessagePart>)
    requires n <= |parts|
    ensures |picked| <= n
  {
    if n == 0 then []
    else
      var before := WithFate(existing, parts, ctx, fate, n - 1);
      if FateOf(existing, parts, ctx, n - 1) == fate then before + [parts[n - 1]] else before
  }

  lemma PartsByIDKeys(existing: seq<MessagePart>, id: string)
    ensures id in PartsByID(existing) <==> exists i :: 0 <= i < |existing| && existing[i].id == id
    ensures id in PartsByID(existing) ==> PartsByID(existing)[id] in existing && PartsByID(existing)[id].id == id
  {
    if existing != [] {
      var last := |existing| - 1;
      PartsByIDKeys(existing[..last], id);
      assert existing == existing[..last] + [existing[last]];
      if i :| 0 <= i < |existing| && existing[i].id == id {
        assert i == last || existing[..last][i].id == id;
      }
    }
  }

  /** What is left of the stored parts once the first n converted parts took theirs. */
  ghost predicate LeftAfter(existing: seq<MessagePart>, parts: seq<MessagePart>, n: nat, left: map<string, MessagePart>)
    requires n <= |parts|
  {
    && (forall id :: id in left <==> id in PartsByID(existing) && forall j :: 0 <= j < n ==> parts[j].id != id)
    && (forall id :: id in left ==> left[id] == PartsByID(existing)[id])
  }

  ghost predicate PairsUp(existing: seq<MessagePart>, modified: seq<EditPart>, picked: seq<MessagePart>) {
    && |modified| == |picked|
    && (forall k :: 0 <= k < |picked| ==>
        && picked[k].id in PartsByID(existing)
        && modified[k] == EditPart(PartsByID(existing)[picked[k].id], picked[k]))
  }

  /** The edit is what the fates say, for converted parts that already carry the flags. */
  ghost predicate EditOf(existing: seq<MessagePart>, carried: seq<MessagePart>, ctx: Context, edit: Edit) {
    && PairsUp(existing, edit.modified, WithFate(existing, carried, ctx, Modify, |carried|))
    && edit.added == WithFate(existing, carried, ctx, Add, |carried|)
    && LeftAfter(existing, carried, |carried|, edit.deleted)
  }

  lemma LeftStep(existing: seq<MessagePart>, parts: seq<MessagePart>, i: nat, left: map<string, MessagePart>)
    requires i < |parts| && LeftAfter(existing, parts, i, left)
    ensures parts[i].id in left <==> Matches(existing, parts, i)
    ensures LeftAfter(existing, parts, i + 1, left - {parts[i].id})
  {
  }

  lemma PairsStep(existing: seq<MessagePart>, modified: seq<EditPart>, picked: seq<MessagePart>, part: MessagePart)
    requires PairsUp(existing, modified, picked) && part.id in PartsByID(existing)
    ensures PairsUp(existing, modified + [EditPart(PartsByID(existing)[part.id], part)], picked + [part])
  {
  }

  method IndexByID(existing: seq<MessagePart>) returns (byID: map<string, MessagePart>)
    ensures byID == PartsByID(existing)
  {
    byID := map[];
    for i := 0 to |existing|
      invariant byID == PartsByID(existing[..i])
    {
      assert existing[..i + 1][..i] == existing[..i];
      byID := byID[existing[i].id := existing[i]];
    }
    assert existing[..|existing|] == existing;
  }

  /** Go's run-time panic at an index. */
  datatype Panic = IndexOutOfRange

  /**
   * parts is the array behind the converted message; the parts to add end up in its first |added|
   * places. The first stored and the first converted part are read before anything else.
   */
  method ConvertEdit(parts: array<MessagePart>, existing: seq<MessagePart>, ctx: Context) returns (r: Result<Edit, Panic>)
    modifies parts
    ensures r.Err? <==> parts.Length == 0 || existing == []
    ensures r.Err? ==> parts[..] == old(parts[..])
    ensures r.Ok? ==> EditOf(existing, Carried(existing, old(parts[..])), ctx, r.value)
    ensures r.Ok? ==> |r.value.added| <= parts.Length && parts[..|r.value.added|] == r.value.added
  {
    var left := IndexByID(existing);
    if |existing| == 0 || parts.Length == 0 {
      return Err(IndexOutOfRange);
    }
    ghost var carried := Carried(existing, parts[..]);
    parts[0] := parts[0].(meta := CarryFlags(existing[0].meta, parts[0].meta));
    assert parts[..] == carried;
    var modified, deleted, n := FilterParts(parts, existing, ctx, left, carried);
    r := Ok(Edit(modified, parts[..n], deleted));
  }

  /** The loop of ConvertEdit: the front of the array is overwritten while the rest is still to be read. */
  method FilterParts(parts: array<MessagePart>, existing: seq<MessagePart>, ctx: Context,
                     byID: map<string, MessagePart>, ghost carried: seq<MessagePart>)
      returns (modified: seq<EditPart>, left: map<string, MessagePart>, n: nat)
    requires byID == PartsByID(existing) && parts[..] == carried
    modifies parts
    ensures n <= parts.Length && parts[..n] == WithFate(existing, carried, ctx, Add, |carried|)
    ensures PairsUp(existing, modified, WithFate(existing, carried, ctx, Modify, |carried|))
    ensures LeftAfter(existing, carried, |carried|, left)
  {
    modified, left, n := [], byID, 0;
    for i := 0 to parts.Length
      invariant n <= i
      invariant parts[..n] == WithFate(existing, carried, ctx, Add, i)
      invariant parts[i..] == carried[i..]
      invariant PairsUp(existing, modified, WithFate(existing, carried, ctx, Modify, i))
      invariant LeftAfter(existing, carried, i, left)
    {
      var part := parts[i];
      assert part == parts[i..][0] == carried[i];
      LeftStep(existing, carried, i, left);
      if part.id in left {
        PairsStep(existing, modified, WithFate(existing, carried, ctx, Modify, i), part);
        modified := modified + [EditPart(left[part.id], part)];
        left := left - {part.id};
      } else {
        assert left - {part.id} == left;
        if ctx.MayAdd(i) {
          ghost var before := parts[..n];
          parts[n] := part;
          n := n + 1;
          assert parts[..n] == before + [part];
        }
      }
      assert parts[i + 1..] == carried[i..][1..];
    }
  }

  // ----- Both sides are partitioned -----

  predicate DistinctIDs(parts: seq<MessagePart>) {
    forall i, j :: 0 <= i < j < |parts| ==> parts[i].id != parts[j].id
  }

  lemma {:induction false} FatesPartition(existing: seq<MessagePart>, parts: seq<MessagePart>, ctx: Context, n: nat)
    requires n <= |parts|
    ensures multiset(parts[..n]) ==
      multiset(WithFate(existing, parts, ctx, Modify, n)) + multiset(WithFate(existing, parts, ctx, Add, n))
      + multiset(WithFate(existing, parts, ctx, Drop, n))
  {
    if n > 0 {
      FatesPartition(existing, parts, ctx, n - 1);
      assert parts[..n] == parts[..n - 1] + [parts[n - 1]];
      FateStep(existing, parts, ctx, Modify, n);
      FateStep(existing, parts, ctx, Add, n);
      FateStep(existing, parts, ctx, Drop, n);
    }
  }

  lemma FateStep(existing: seq<MessagePart>, parts: seq<MessagePart>, ctx: Context, fate: Fate, n: nat)
    requires 0 < n <= |parts|
    ensures multiset(WithFate(existing, parts, ctx, fate, n)) == multiset(WithFate(existing, parts, ctx, fate, n - 1))
      + if FateOf(existing, parts, ctx, n - 1) == fate then multiset{parts[n - 1]} else multiset{}
  {
  }

  /** Part i is picked behind exactly the earlier parts of the same fate. */
  lemma {:induction false} PickedAt(existing: seq<MessagePart>, parts: seq<MessagePart>, ctx: Context, i: nat, n: nat)
    requires i < n <= |parts|
    ensures var fate := FateOf(existing, parts, ctx, i);
      var position := |WithFate(existing, parts, ctx, fate, i)|;
      position < |WithFate(existing, parts, ctx, fate, n)| && WithFate(existing, parts, ctx, fate, n)[position] == parts[i]
  {
    if i + 1 < n {
      PickedAt(existing, parts, ctx, i, n - 1);
    }
  }

  /** Where a picked part stood among the converted parts. */
  lemma {:induction false} PickedFrom(
    existing: seq<MessagePart>, parts: seq<MessagePart>, ctx: Context, fate: Fate, n: nat, k: nat)
      returns (i: nat)
    requires n <= |parts| && k < |WithFate(existing, parts, ctx, fate, n)|
    ensures i < n && parts[i] == WithFate(existing, parts, ctx, fate, n)[k]
    ensures FateOf(existing, parts, ctx, i) == fate && |WithFate(existing, parts, ctx, fate, i)| == k
  {
    if k < |WithFate(existing, parts, ctx, fate, n - 1)| {
      i := PickedFrom(existing, parts, ctx, fate, n - 1, k);
    } else {
      i := n - 1;
    }
  }

  /** Two picked parts stood in the same order. */
  lemma {:induction false} PickedInOrder(
    existing: seq<MessagePart>, parts: seq<MessagePart>, ctx: Context, fate: Fate, i: nat, n: nat)
    requires i <= n <= |parts|
    ensures |WithFate(existing, parts, ctx, fate, i)| <= |WithFate(existing, parts, ctx, fate, n)|
  {
    if i < n {
      PickedInOrder(existing, parts, ctx, fate, i, n - 1);
    }
  }

  predicate IsDeleted(edit: Edit, e: MessagePart) {
    e.id in edit.deleted && edit.deleted[e.id] == e
  }

  predicate IsModified(edit: Edit, e: MessagePart) {
    exists k :: 0 <= k < |edit.modified| && edit.modified[k].existing == e
  }

  /** Each stored part is modified or deleted, and not both; no stored part is modified twice. */
  lemma ExistingArePartitioned(existing: seq<MessagePart>, parts: seq<MessagePart>, ctx: Context, edit: Edit)
    requires DistinctIDs(existing) && EditOf(existing, parts, ctx, edit)
    ensures forall e :: e in existing ==> (IsDeleted(edit, e) <==> !IsModified(edit, e))
    ensures forall id :: id in edit.deleted ==> edit.deleted[id] in existing && edit.deleted[id].id == id
    ensures forall k :: 0 <= k < |edit.modified| ==>
      edit.modified[k].existing in existing && edit.modified[k].existing.id == edit.modified[k].part.id
    ensures forall k, l :: 0 <= k < l < |edit.modified| ==> edit.modified[k].part.id != edit.modified[l].part.id
  {
    var byID := PartsByID(existing);
    var picked := WithFate(existing, parts, ctx, Modify, |parts|);
    forall id | id in byID
      ensures byID[id] in existing && byID[id].id == id
    {
      PartsByIDKeys(existing, id);
    }
    forall e | e in existing
      ensures e.id in byID && byID[e.id] == e
      ensures IsDeleted(edit, e) <==> !IsModified(edit, e)
    {
      PartsByIDKeys(existing, e.id);
      if e.id in edit.deleted {
        if k :| 0 <= k < |edit.modified| && edit.modified[k].existing == e {
          var _ := PickedFrom(existing, parts, ctx, Modify, |parts|, k);
          assert false;
        }
      } else {
        var j :| 0 <= j < |parts| && parts[j].id == e.id;
        var k := FirstTakes(existing, parts, ctx, j);
        assert edit.modified[k].existing == e;
      }
    }
    forall k, l | 0 <= k < l < |picked|
      ensures picked[k].id != picked[l].id
    {
      var i := PickedFrom(existing, parts, ctx, Modify, |parts|, k);
      var j := PickedFrom(existing, parts, ctx, Modify, |parts|, l);
      if j <= i {
        PickedInOrder(existing, parts, ctx, Modify, j, i);
      }
      assert Matches(existing, parts, j);
    }
  }

  /** The first part with a stored id takes it. */
  lemma {:induction false} FirstTakes(existing: seq<MessagePart>, parts: seq<MessagePart>, ctx: Context, j: nat)
      returns (k: nat)
    requires j < |parts| && parts[j].id in PartsByID(existing)
    ensures k < |WithFate(existing, parts, ctx, Modify, |parts|)|
    ensures WithFate(existing, parts, ctx, Modify, |parts|)[k].id == parts[j].id
  {
    if i :| 0 <= i < j && parts[i].id == parts[j].id {
      k := FirstTakes(existing, parts, ctx, i);
    } else {
      PickedAt(existing, parts, ctx, j, |parts|);
      k := |WithFate(existing, parts, ctx, Modify, j)|;
    }
  }

  /** The converted parts of the modified rows, in the order of the edit. */
  function NewParts(modified: seq<EditPart>): (parts: seq<MessagePart>)
    ensures |parts| == |modified| && forall k :: 0 <= k < |parts| ==> parts[k] == modified[k].part
  {
    seq(|modified|, k requires 0 <= k < |modified| => modified[k].part)
  }

  predicate IsStoredID(existing: seq<MessagePart>, id: string) {
    exists e :: 0 <= e < |existing| && existing[e].id == id
  }

  /** The part is too old to be added, and no stored part is left for it to replace. */
  predicate IsDropped(existing: seq<MessagePart>, parts: seq<MessagePart>, ctx: Context, i: nat)
    requires i < |parts|
  {
    && !ctx.MayAdd(i)
    && (IsStoredID(existing, parts[i].id) ==> exists j :: 0 <= j < i && parts[j].id == parts[i].id)
  }

  function Dropped(existing: seq<MessagePart>, parts: seq<MessagePart>, ctx: Context, n: nat): seq<MessagePart>
    requires n <= |parts|
  {
    if n == 0 then []
    else Dropped(existing, parts, ctx, n - 1) + if IsDropped(existing, parts, ctx, n - 1) then [parts[n - 1]] else []
  }

  lemma DropMeansDropped(existing: seq<MessagePart>, parts: seq<MessagePart>, ctx: Context, i: nat)
    requires i < |parts|
    ensures FateOf(existing, parts, ctx, i) == Drop <==> IsDropped(existing, parts, ctx, i)
  {
    PartsByIDKeys(existing, parts[i].id);
  }

  lemma {:induction false} DroppedHaveFate(existing: seq<MessagePart>, parts: seq<MessagePart>, ctx: Context, n: nat)
    requires n <= |parts|
    ensures WithFate(existing, parts, ctx, Drop, n) == Dropped(existing, parts, ctx, n)
  {
    if n > 0 {
      DroppedHaveFate(existing, parts, ctx, n - 1);
      DropMeansDropped(existing, parts, ctx, n - 1);
    }
  }

  /** Each converted part is in the edit as a modification or an addition, or was dropped, exactly once. */
  lemma PartsArePartitioned(existing: seq<MessagePart>, carried: seq<MessagePart>, ctx: Context, edit: Edit)
    requires EditOf(existing, carried, ctx, edit)
    ensures multiset(carried) ==
      multiset(NewParts(edit.modified)) + multiset(edit.added) + multiset(Dropped(existing, carried, ctx, |carried|))
  {
    assert NewParts(edit.modified) == WithFate(existing, carried, ctx, Modify, |carried|);
    assert carried[..|carried|] == carried;
    FatesPartition(existing, carried, ctx, |carried|);
    DroppedHaveFate(existing, carried, ctx, |carried|);
  }

  /** With distinct ids: a converted part is missing from the edit if and only if it is new and too old to be added. */
  lemma MissingMeansTooOld(existing: seq<MessagePart>, carried: seq<MessagePart>, ctx: Context, edit: Edit, i: nat)
    requires EditOf(existing, carried, ctx, edit) && DistinctIDs(carried) && i < |carried|
    ensures carried[i] !in NewParts(edit.modified) && carried[i] !in edit.added <==>
      !IsStoredID(existing, carried[i].id) && !ctx.MayAdd(i)
  {
    DropMeansDropped(existing, carried, ctx, i);
    PickedAt(existing, carried, ctx, i, |carried|);
    assert NewParts(edit.modified) == WithFate(existing, carried, ctx, Modify, |carried|);
    PickedOnly(existing, carried, ctx, Modify, i);
    PickedOnly(existing, carried, ctx, Add, i);
  }

  lemma PickedOnly(existing: seq<MessagePart>, parts: seq<MessagePart>, ctx: Context, fate: Fate, i: nat)
    requires DistinctIDs(parts) && i < |parts|
    ensures parts[i] in WithFate(existing, parts, ctx, fate, |parts|) ==> FateOf(existing, parts, ctx, i) == fate
  {
    var picked := WithFate(existing, parts, ctx, fate, |parts|);
    if k :| 0 <= k < |picked| && picked[k] == parts[i] {
      var j := PickedFrom(existing, parts, ctx, fate, |parts|, k);
      assert j == i;
    }
  }

  /**
   * With distinct ids: a converted part whose id is stored replaces the row. Any other is added exactly
   * if the message came from another chat, or is less than 24 hours old when the part is reached.
   */
  lemma AddedExactly(existing: seq<MessagePart>, carried: seq<MessagePart>, ctx: Context, edit: Edit, i: nat)
    requires EditOf(existing, carried, ctx, edit) && DistinctIDs(carried) && i < |carried|
    ensures carried[i] in NewParts(edit.modified) <==> IsStoredID(existing, carried[i].id)
    ensures carried[i] in edit.added <==>
      !IsStoredID(existing, carried[i].id) && (ctx.chatIDChanged || ctx.now(i) - ctx.timestamp < 86_400_000_000)
  {
    PartsByIDKeys(existing, carried[i].id);
    PickedAt(existing, carried, ctx, i, |carried|);
    assert NewParts(edit.modified) == WithFate(existing, carried, ctx, Modify, |carried|);
    PickedOnly(existing, carried, ctx, Modify, i);
    PickedOnly(existing, carried, ctx, Add, i);
  }

  /** A stored part is deleted exactly if the conversion has no part with its id. */
  lemma DeletedExactly(existing: seq<MessagePart>, carried: seq<MessagePart>, ctx: Context, edit: Edit, id: string)
    requires EditOf(existing, carried, ctx, edit)
    ensures id in edit.deleted <==> IsStoredID(existing, id) && !IsStoredID(carried, id)
  {
    PartsByIDKeys(existing, id);
  }

  /** Nothing but the sender and the one-shot flags of the main part is taken over from the stored main part. */
  lemma CarriedAre(existing: seq<MessagePart>, parts: seq<MessagePart>)
    requires existing != [] && parts != []
    ensures var carried, from, to := Carried(existing, parts), existing[0].meta, parts[0].meta;
      && |carried| == |parts| && carried[1..] == parts[1..] && carried[0].id == parts[0].id
      && carried[0].meta == Metadata(
        to.status, to.mediaStatus, to.partCount, to.textHash, to.mediaPartID, to.mediaID, to.mediaPending,
        from.isOutgoing, from.mssSent, from.mssFailSent, from.mssDeliverySent, from.readReceiptSent)
  {
  }

  /** part is a subsequence of whole: its elements stand there at the given, increasing places. */
  predicate StandsAt(part: seq<MessagePart>, whole: seq<MessagePart>, places: seq<nat>) {
    && |places| == |part|
    && (forall k :: 0 <= k < |places| ==> places[k] < |whole| && whole[places[k]] == part[k])
    && (forall k, l :: 0 <= k < l < |places| ==> places[k] < places[l])
  }

  /** The modified and the added parts each keep the order of the converted parts, and no place is taken twice. */
  lemma OrderIsKept(existing: seq<MessagePart>, carried: seq<MessagePart>, ctx: Context, edit: Edit)
      returns (modifiedAt: seq<nat>, addedAt: seq<nat>)
    requires EditOf(existing, carried, ctx, edit)
    ensures StandsAt(NewParts(edit.modified), carried, modifiedAt) && StandsAt(edit.added, carried, addedAt)
    ensures forall k, l :: 0 <= k < |modifiedAt| && 0 <= l < |addedAt| ==> modifiedAt[k] != addedAt[l]
  {
    modifiedAt := PlacesOf(existing, carried, ctx, Modify, |carried|);
    addedAt := PlacesOf(existing, carried, ctx, Add, |carried|);
    assert NewParts(edit.modified) == WithFate(existing, carried, ctx, Modify, |carried|);
  }

  lemma {:induction false} PlacesOf(existing: seq<MessagePart>, parts: seq<MessagePart>, ctx: Context, fate: Fate, n: nat)
      returns (places: seq<nat>)
    requires n <= |parts|
    ensures StandsAt(WithFate(existing, parts, ctx, fate, n), parts, places)
    ensures forall k :: 0 <= k < |places| ==> places[k] < n && FateOf(existing, parts, ctx, places[k]) == fate
  {
    if n == 0 {
      places := [];
    } else {
      places := PlacesOf(existing, parts, ctx, fate, n - 1);
      if FateOf(existing, parts, ctx, n - 1) == fate {
        places := places + [n - 1];
      }
    }
  }

  // ----- The stored parts after the edit -----

  function FindEdit(modified: seq<EditPart>, id: string): Option<MessagePart> {
    if modified == [] then None
    else if modified[0].existing.id == id then Some(modified[0].part)
    else FindEdit(modified[1..], id)
  }

  /** Modified rows take the converted part, deleted rows go. */
  function Rewritten(existing: seq<MessagePart>, edit: Edit): seq<MessagePart> {
    if existing == [] then []
    else
      var e := existing[0];
      var rest := Rewritten(existing[1..], edit);
      if e.id in edit.deleted then rest
      else match FindEdit(edit.modified, e.id)
        case Some(part) => [part] + rest
        case None => [e] + rest
  }

  /** The rows once the edit is stored: added parts follow, unless a row has their key already. */
  function Stored(existing: seq<MessagePart>, edit: Edit): seq<MessagePart> {
    Inserted(Rewritten(existing, edit), edit.added)
  }

  function Inserted(rows: seq<MessagePart>, added: seq<MessagePart>): seq<MessagePart>
    decreases |added|
  {
    if added == [] then rows
    else if HasID(rows, added[0].id) then Inserted(rows, added[1..])
    else Inserted(rows + [added[0]], added[1..])
  }

  predicate HasID(rows: seq<MessagePart>, id: string) {
    exists i :: 0 <= i < |rows| && rows[i].id == id
  }

  lemma {:induction false} FindEditAt(modified: seq<EditPart>, id: string)
    ensures match FindEdit(modified, id)
      case None => forall k :: 0 <= k < |modified| ==> modified[k].existing.id != id
      case Some(part) => exists k :: 0 <= k < |modified| && modified[k].existing.id == id && modified[k].part == part
  {
    if modified != [] {
      FindEditAt(modified[1..], id);
      if modified[0].existing.id != id {
        match FindEdit(modified, id)
        case None =>
          forall k | 0 <= k < |modified|
            ensures modified[k].existing.id != id
          {
            assert k == 0 || modified[k] == modified[1..][k - 1];
          }
        case Some(part) =>
          var k :| 0 <= k < |modified[1..]| && modified[1..][k].existing.id == id && modified[1..][k].part == part;
          assert modified[k + 1].existing.id == id && modified[k + 1].part == part;
      }
    }
  }

  lemma {:induction false} InsertedKeeps(rows: seq<MessagePart>, added: seq<MessagePart>)
    ensures rows <= Inserted(rows, added)
    ensures forall p :: p in Inserted(rows, added) ==> p in rows || p in added
    ensures DistinctIDs(rows) ==> DistinctIDs(Inserted(rows, added))
    ensures forall p :: p in added ==> HasID(Inserted(rows, added), p.id)
    decreases |added|
  {
    if added != [] {
      if HasID(rows, added[0].id) {
        InsertedKeeps(rows, added[1..]);
        var i :| 0 <= i < |rows| && rows[i].id == added[0].id;
        assert Inserted(rows, added)[i] == rows[i];
      } else {
        InsertedKeeps(rows + [added[0]], added[1..]);
        assert Inserted(rows, added)[|rows|] == (rows + [added[0]])[|rows|] == added[0];
      }
    }
  }

  lemma {:induction false} RewrittenComesFrom(existing: seq<MessagePart>, edit: Edit)
    requires DistinctIDs(existing)
    requires forall k :: 0 <= k < |edit.modified| ==> edit.modified[k].existing.id == edit.modified[k].part.id
    ensures forall p :: p in Rewritten(existing, edit) ==> HasID(existing, p.id)
    ensures DistinctIDs(Rewritten(existing, edit))
  {
    if existing != [] {
      var e, rest := existing[0], Rewritten(existing[1..], edit);
      RewrittenComesFrom(existing[1..], edit);
      FindEditAt(edit.modified, e.id);
      forall p | p in rest
        ensures HasID(existing, p.id) && p.id != e.id
      {
        var i :| 0 <= i < |existing[1..]| && existing[1..][i].id == p.id;
        assert existing[i + 1].id == p.id;
      }
      assert existing[0].id == e.id;
    }
  }

  lemma {:induction false} RewrittenHas(existing: seq<MessagePart>, edit: Edit, i: nat)
    requires i < |existing| && existing[i].id !in edit.deleted
    requires FindEdit(edit.modified, existing[i].id).Some?
    ensures FindEdit(edit.modified, existing[i].id).value in Rewritten(existing, edit)
  {
    if i > 0 {
      RewrittenHas(existing[1..], edit, i - 1);
    }
  }

  lemma {:induction false} RewrittenParts(existing: seq<MessagePart>, edit: Edit)
    requires forall e :: e in existing ==> e.id in edit.deleted || FindEdit(edit.modified, e.id).Some?
    ensures forall p :: p in Rewritten(existing, edit) ==> exists k :: 0 <= k < |edit.modified| && edit.modified[k].part == p
  {
    if existing != [] {
      RewrittenParts(existing[1..], edit);
      FindEditAt(edit.modified, existing[0].id);
    }
  }

  /** Whatever else the edit does, the main row becomes the main converted part. */
  lemma MainAfterEdit(existing: seq<MessagePart>, parts: seq<MessagePart>, ctx: Context, edit: Edit)
    requires existing != [] && parts != [] && existing[0].id == parts[0].id
    requires DistinctIDs(existing) && EditOf(existing, parts, ctx, edit)
    ensures var stored := Stored(existing, edit); stored != [] && stored[0] == parts[0] && DistinctIDs(stored)
  {
    var rows := Rewritten(existing, edit);
    ExistingArePartitioned(existing, parts, ctx, edit);
    RewrittenComesFrom(existing, edit);
    InsertedKeeps(rows, edit.added);
    PartsByIDKeys(existing, parts[0].id);
    assert Matches(existing, parts, 0);
    ModifiedIsStored(existing, parts, ctx, edit, 0);
    assert rows[0] == Stored(existing, edit)[0];
  }

  /**
   * After the edit the rows are the converted parts except the dropped ones, each once, and the main
   * row is the main converted part with the flags of the former main row.
   */
  lemma StoredIsConverted(existing: seq<MessagePart>, parts: seq<MessagePart>, ctx: Context, edit: Edit)
    requires existing != [] && parts != [] && existing[0].id == parts[0].id
    requires DistinctIDs(existing) && DistinctIDs(parts)
    requires EditOf(existing, parts, ctx, edit)
    ensures var stored := Stored(existing, edit);
      && stored != [] && stored[0] == parts[0] && DistinctIDs(stored)
      && forall i :: 0 <= i < |parts| ==> (parts[i] in stored <==> FateOf(existing, parts, ctx, i) != Drop)
    ensures forall p :: p in Stored(existing, edit) ==> p in parts
  {
    var rows, stored := Rewritten(existing, edit), Stored(existing, edit);
    ExistingArePartitioned(existing, parts, ctx, edit);
    RewrittenComesFrom(existing, edit);
    InsertedKeeps(rows, edit.added);
    forall e | e in existing
      ensures e.id in edit.deleted || FindEdit(edit.modified, e.id).Some?
    {
      FindEditAt(edit.modified, e.id);
    }
    RewrittenParts(existing, edit);
    forall p | p in stored
      ensures p in parts
    {
      if p in edit.added {
        var k :| 0 <= k < |edit.added| && edit.added[k] == p;
        var _ := PickedFrom(existing, parts, ctx, Add, |parts|, k);
      } else {
        var k :| 0 <= k < |edit.modified| && edit.modified[k].part == p;
        var _ := PickedFrom(existing, parts, ctx, Modify, |parts|, k);
      }
    }
    forall i | 0 <= i < |parts|
      ensures parts[i] in stored <==> FateOf(existing, parts, ctx, i) != Drop
    {
      StoredPart(existing, parts, ctx, edit, i);
    }
    MainAfterEdit(existing, parts, ctx, edit);
  }

  /** A matching part sits in the row it replaced. */
  lemma ModifiedIsStored(existing: seq<MessagePart>, parts: seq<MessagePart>, ctx: Context, edit: Edit, i: nat)
    requires i < |parts| && Matches(existing, parts, i)
    requires DistinctIDs(existing) && EditOf(existing, parts, ctx, edit)
    ensures parts[i].id !in edit.deleted && FindEdit(edit.modified, parts[i].id) == Some(parts[i])
    ensures parts[i] in Rewritten(existing, edit)
  {
    PickedAt(existing, parts, ctx, i, |parts|);
    var k := |WithFate(existing, parts, ctx, Modify, i)|;
    assert edit.modified[k].part == parts[i];
    ExistingArePartitioned(existing, parts, ctx, edit);
    assert edit.modified[k].existing.id == parts[i].id;
    FindEditAt(edit.modified, parts[i].id);
    PartsByIDKeys(existing, parts[i].id);
    var e :| 0 <= e < |existing| && existing[e].id == parts[i].id;
    RewrittenHas(existing, edit, e);
  }

  lemma StoredPart(existing: seq<MessagePart>, parts: seq<MessagePart>, ctx: Context, edit: Edit, i: nat)
    requires i < |parts|
    requires DistinctIDs(existing) && DistinctIDs(parts) && EditOf(existing, parts, ctx, edit)
    ensures parts[i] in Stored(existing, edit) <==> FateOf(existing, parts, ctx, i) != Drop
  {
    var rows, stored := Rewritten(existing, edit), Stored(existing, edit);
    ExistingArePartitioned(existing, parts, ctx, edit);
    RewrittenComesFrom(existing, edit);
    InsertedKeeps(rows, edit.added);
    match FateOf(existing, parts, ctx, i)
    case Modify =>
      ModifiedIsStored(existing, parts, ctx, edit, i);
    case Add =>
      PickedAt(existing, parts, ctx, i, |parts|);
      AddedIsStored(existing, parts, ctx, edit, i);
    case Drop =>
      DroppedIsNotAdded(existing, parts, ctx, edit, i);
      PartsByIDKeys(existing, parts[i].id);
  }

  lemma DroppedIsNotAdded(existing: seq<MessagePart>, parts: seq<MessagePart>, ctx: Context, edit: Edit, i: nat)
    requires i < |parts| && FateOf(existing, parts, ctx, i) == Drop
    requires DistinctIDs(parts) && EditOf(existing, parts, ctx, edit)
    ensures parts[i] !in edit.added
  {
    if k :| 0 <= k < |edit.added| && edit.added[k] == parts[i] {
      var _ := PickedFrom(existing, parts, ctx, Add, |parts|, k);
      assert false;
    }
  }

  lemma AddedIsStored(existing: seq<MessagePart>, parts: seq<MessagePart>, ctx: Context, edit: Edit, i: nat)
    requires i < |parts| && parts[i] in edit.added && FateOf(existing, parts, ctx, i) == Add
    requires DistinctIDs(existing) && DistinctIDs(parts) && EditOf(existing, parts, ctx, edit)
    ensures parts[i] in Stored(existing, edit)
  {
    var rows, stored := Rewritten(existing, edit), Stored(existing, edit);
    ExistingArePartitioned(existing, parts, ctx, edit);
    RewrittenComesFrom(existing, edit);
    InsertedKeeps(rows, edit.added);
    var s :| 0 <= s < |stored| && stored[s].id == parts[i].id;
    PartsByIDKeys(existing, parts[i].id);
    assert stored[s] in edit.added;
    var k :| 0 <= k < |edit.added| && edit.added[k] == stored[s];
    var j := PickedFrom(existing, parts, ctx, Add, |parts|, k);
    assert j == i;
  }

  /** There is such an edit for all parts. */
  lemma EditExists(existing: seq<MessagePart>, carried: seq<MessagePart>, ctx: Context) returns (edit: Edit)
    ensures EditOf(existing, carried, ctx, edit)
  {
    var byID := PartsByID(existing);
    var picked := WithFate(existing, carried, ctx, Modify, |carried|);
    forall k | 0 <= k < |picked|
      ensures picked[k].id in byID
    {
      var i := PickedFrom(existing, carried, ctx, Modify, |carried|, k);
      assert Matches(existing, carried, i);
    }
    edit := Edit(
      seq(|picked|, k requires 0 <= k < |picked| => EditPart(byID[picked[k].id], picked[k])),
      WithFate(existing, carried, ctx, Add, |carried|),
      map id | id in byID && forall j :: 0 <= j < |carried| ==> carried[j].id != id :: byID[id]);
  }
}

/**
 * The duplicate filter of the update stream (pkg/libgm/event_handler.go): a ring of the last eight
 * recorded updates, searched backwards.
 */
module DedupRing {
  import opened Basics

  const RECENT_UPDATES := 8

  /** An update: the id of the thing it is about and the hash of its content. */
  datatype Item = Item(id: string, hash: int)

  /** Go's zero value, which fills the ring before anything is recorded. */
  const BLANK := Item("", 0)

  /** The newest record of id, looking back from the end. */
  function Newest(records: seq<Item>, id: string): Option<int> {
    if records == [] then None
    else
      var last := records[|records| - 1];
      if last.id == id then Some(last.hash) else Newest(records[..|records| - 1], id)
  }

  function Blanks(): seq<Item> {
    [BLANK, BLANK, BLANK, BLANK, BLANK, BLANK, BLANK, BLANK]
  }

  /** The last eight entries of a history that starts out blank. */
  function Window(history: seq<Item>): (w: seq<Item>)
    ensures |w| == RECENT_UPDATES
  {
    (Blanks() + history)[|history|..]
  }

  /** The plain bounded history: what is a duplicate, and what is remembered of it. */
  predicate IsDuplicate(history: seq<Item>, item: Item) {
    Newest(Window(history), item.id) == Some(item.hash)
  }

  function Record(history: seq<Item>, item: Item): seq<Item> {
    if IsDuplicate(history, item) then history else history + [item]
  }

  /** The slots from the oldest to the newest. */
  function Unrolled(slots: seq<Item>, ptr: nat): seq<Item>
    requires |slots| == RECENT_UPDATES && ptr < RECENT_UPDATES
  {
    slots[ptr..] + slots[..ptr]
  }

  lemma UnrolledAt(slots: seq<Item>, ptr: nat, n: nat)
    requires |slots| == RECENT_UPDATES && ptr < RECENT_UPDATES && n < RECENT_UPDATES
    ensures Unrolled(slots, ptr)[n] == slots[(ptr + n) % RECENT_UPDATES]
  {
  }

  lemma OverwriteOldest(slots: seq<Item>, ptr: nat, item: Item)
    requires |slots| == RECENT_UPDATES && ptr < RECENT_UPDATES
    ensures Unrolled(slots[ptr := item], (ptr + 1) % RECENT_UPDATES) == Unrolled(slots, ptr)[1..] + [item]
  {
  }

  /** Overwriting the oldest slot records one more update. */
  lemma RingAdvances(slots: seq<Item>, ptr: nat, history: seq<Item>, item: Item)
    requires |slots| == RECENT_UPDATES && ptr < RECENT_UPDATES
    requires Unrolled(slots, ptr) == Window(history)
    ensures Unrolled(slots[ptr := item], (ptr + 1) % RECENT_UPDATES) == Window(history + [item])
  {
    OverwriteOldest(slots, ptr, item);
    WindowShifts(history, item);
  }

  class Ring {
    const slots: array<Item>
    var ptr: nat
    ghost var history: seq<Item> // every update recorded so far

    ghost predicate Valid()
      reads this, slots
    {
      && slots.Length == RECENT_UPDATES && ptr < RECENT_UPDATES
      && Unrolled(slots[..], ptr) == Window(history)
    }

    constructor ()
      ensures Valid() && fresh(slots) && history == []
    {
      slots := new Item[RECENT_UPDATES](i => BLANK);
      ptr := 0;
      history := [];
      new;
      assert Window([]) == Blanks();
      assert Unrolled(slots[..], 0) == Blanks();
    }

    /** The backward search over the ring. */
    method HasNewest(id: string, hash: int) returns (duplicate: bool)
      requires Valid()
      ensures duplicate == IsDuplicate(history, Item(id, hash))
    {
      ghost var window := Unrolled(slots[..], ptr);
      var i := ptr + RECENT_UPDATES - 1;
      assert window[..RECENT_UPDATES] == window;
      forall n | 0 <= n < RECENT_UPDATES
        ensures window[n] == slots[(ptr + n) % RECENT_UPDATES]
      {
        UnrolledAt(slots[..], ptr, n);
      }
      while i >= ptr
        invariant ptr - 1 <= i <= ptr + RECENT_UPDATES - 1
        invariant Newest(window, id) == Newest(window[..i - ptr + 1], id)
        decreases i
      {
        ghost var n := i - ptr;
        assert window[..n + 1][..n] == window[..n];
        assert slots[i % RECENT_UPDATES] == window[n];
        if slots[i % RECENT_UPDATES].id == id {
          return slots[i % RECENT_UPDATES].hash == hash;
        }
        i := i - 1;
      }
      return false;
    }

    method DeduplicateHash(id: string, hash: int) returns (duplicate: bool)
      requires Valid()
      modifies this, slots
      ensures Valid()
      ensures duplicate == IsDuplicate(old(history), Item(id, hash))
      ensures history == Record(old(history), Item(id, hash))
      ensures duplicate ==> ptr == old(ptr) && slots[..] == old(slots[..])
    {
      duplicate := HasNewest(id, hash);
      if !duplicate {
        var item := Item(id, hash);
        RingAdvances(slots[..], ptr, history, item);
        ghost var before := slots[..];
        slots[ptr] := item;
        assert slots[..] == before[ptr := item];
        ptr := (ptr + 1) % RECENT_UPDATES;
        history := history + [item];
      }
    }
  }

  lemma WindowShifts(history: seq<Item>, item: Item)
    ensures Window(history + [item]) == Window(history)[1..] + [item]
  {
    assert Blanks() + (history + [item]) == Blanks() + history + [item];
  }

  // ----- What the window means -----

  lemma {:induction false} NewestIsLast(records: seq<Item>, id: string, k: nat)
    requires k < |records| && records[k].id == id
    requires forall j :: k < j < |records| ==> records[j].id != id
    ensures Newest(records, id) == Some(records[k].hash)
    decreases |records|
  {
    if k < |records| - 1 {
      NewestIsLast(records[..|records| - 1], id, k);
    }
  }

  lemma {:induction false} NewestWitness(records: seq<Item>, id: string) returns (k: nat)
    requires Newest(records, id).Some?
    ensures k < |records| && records[k].id == id && Newest(records, id) == Some(records[k].hash)
    ensures forall j :: k < j < |records| ==> records[j].id != id
  {
    if records[|records| - 1].id == id {
      k := |records| - 1;
    } else {
      k := NewestWitness(records[..|records| - 1], id);
    }
  }

  /** For a real id, only the last eight recorded updates count, and of those the newest with that id. */
  lemma DuplicateMeans(history: seq<Item>, item: Item)
    requires item.id != ""
    ensures IsDuplicate(history, item) <==>
      exists k :: LastEight(history, k) && history[k] == item
        && forall j :: k < j < |history| ==> history[j].id != item.id
  {
    var window := Window(history);
    forall k | LastEight(history, k)
      ensures window[k + RECENT_UPDATES - |history|] == history[k]
    {
    }
    if IsDuplicate(history, item) {
      var k := NewestWitness(window, item.id);
      var h := k + |history| - RECENT_UPDATES;
      assert window[k] == (Blanks() + history)[k + |history|];
      assert h >= 0;
      assert history[h] == item && LastEight(history, h);
      forall j | h < j < |history|
        ensures history[j].id != item.id
      {
        assert window[j + RECENT_UPDATES - |history|] == history[j];
      }
    }
    if k :| LastEight(history, k) && history[k] == item && forall j :: k < j < |history| ==> history[j].id != item.id {
      var n := k + RECENT_UPDATES - |history|;
      forall j | n < j < |window|
        ensures window[j].id != item.id
      {
        assert window[j] == history[j + |history| - RECENT_UPDATES];
      }
      NewestIsLast(window, item.id, n);
    }
  }

  predicate LastEight(history: seq<Item>, k: int) {
    0 <= k < |history| <= k + RECENT_UPDATES
  }

  /** The history that a stream of updates leaves behind. */
  function HistoryOf(updates: seq<Item>): seq<Item> {
    if updates == [] then []
    else Record(HistoryOf(updates[..|updates| - 1]), updates[|updates| - 1])
  }

  /**
   * In every reachable state, of two neighbouring records of one id at most eight apart the later
   * one has another hash.
   */
  lemma {:induction false} NeighboursDiffer(updates: seq<Item>, i: nat, j: nat)
    requires i < j < |HistoryOf(updates)| && j - i <= RECENT_UPDATES
    requires var h := HistoryOf(updates);
      h[i].id == h[j].id != "" && forall k :: i < k < j ==> h[k].id != h[i].id
    ensures HistoryOf(updates)[i].hash != HistoryOf(updates)[j].hash
  {
    var before, item := HistoryOf(updates[..|updates| - 1]), updates[|updates| - 1];
    var h := HistoryOf(updates);
    if j < |before| {
      assert forall k :: 0 <= k < |before| ==> before[k] == h[k];
      NeighboursDiffer(updates[..|updates| - 1], i, j);
    } else {
      assert h == before + [item] && !IsDuplicate(before, item) && j == |before|;
      assert forall k :: i <= k < j ==> before[k] == h[k];
      DuplicateMeans(before, item);
      assert LastEight(before, i);
    }
  }

  // ----- Events of several parts -----

  /** What becomes of the parts of one event, all of which carry the event's own hash. */
  datatype Outcome = Outcome(history: seq<Item>, emitted: seq<string>)

  /** Parts are handed on until one is a duplicate; the rest of the event is dropped with it. */
  function Deliver(history: seq<Item>, ids: seq<string>, hash: int): Outcome
    decreases |ids|
  {
    if ids == [] || IsDuplicate(history, Item(ids[0], hash)) then Outcome(history, [])
    else
      var rest := Deliver(history + [Item(ids[0], hash)], ids[1..], hash);
      rest.(emitted := [ids[0]] + rest.emitted)
  }

  /** The outcome with what was handed on before. */
  function Behind(emitted: seq<string>, o: Outcome): Outcome {
    o.(emitted := emitted + o.emitted)
  }

  lemma DeliverStep(history: seq<Item>, ids: seq<string>, i: nat, hash: int, emitted: seq<string>)
    requires i < |ids|
    ensures var item := Item(ids[i], hash);
      Behind(emitted, Deliver(history, ids[i..], hash)) ==
        if IsDuplicate(history, item) then Outcome(history, emitted)
        else Behind(emitted + [ids[i]], Deliver(history + [item], ids[i + 1..], hash))
  {
    assert ids[i..][0] == ids[i] && ids[i..][1..] == ids[i + 1..];
    var rest := Deliver(history + [Item(ids[i], hash)], ids[i + 1..], hash);
    assert emitted + ([ids[i]] + rest.emitted) == emitted + [ids[i]] + rest.emitted;
  }

  method DeliverEvent(ring: Ring, ids: seq<string>, hash: int) returns (emitted: seq<string>)
    requires ring.Valid()
    modifies ring, ring.slots
    ensures ring.Valid()
    ensures Outcome(ring.history, emitted) == Deliver(old(ring.history), ids, hash)
  {
    emitted := [];
    ghost var whole := Deliver(ring.history, ids, hash);
    assert ids[0..] == ids && Behind([], whole) == whole;
    for i := 0 to |ids|
      invariant ring.Valid()
      invariant whole == Behind(emitted, Deliver(ring.history, ids[i..], hash))
    {
      DeliverStep(ring.history, ids, i, hash, emitted);
      var duplicate := ring.DeduplicateHash(ids[i], hash);
      if duplicate {
        return;
      }
      emitted := emitted + [ids[i]];
    }
  }

  function Items(ids: seq<string>, hash: int): seq<Item> {
    seq(|ids|, i requires 0 <= i < |ids| => Item(ids[i], hash))
  }

  lemma {:induction false} DeliverRecordsWhatItEmits(history: seq<Item>, ids: seq<string>, hash: int)
    ensures var d := Deliver(history, ids, hash);
      && d.emitted <= ids
      && d.history == history + Items(d.emitted, hash)
    decreases |ids|
  {
    if ids != [] && !IsDuplicate(history, Item(ids[0], hash)) {
      var longer := history + [Item(ids[0], hash)];
      DeliverRecordsWhatItEmits(longer, ids[1..], hash);
      var rest := Deliver(longer, ids[1..], hash);
      var emitted := [ids[0]] + rest.emitted;
      assert Items(emitted, hash) == [Item(ids[0], hash)] + Items(rest.emitted, hash);
    } else {
      assert Items([], hash) == [];
      assert history + [] == history;
    }
  }

  /** Part n is the first that repeats a record, counting the records that the parts before it leave. */
  predicate RepeatsFirstAt(history: seq<Item>, ids: seq<string>, hash: int, n: nat) {
    && n <= |ids|
    && (forall j :: 0 <= j < n ==> !IsDuplicate(history + Items(ids[..j], hash), Item(ids[j], hash)))
    && (n < |ids| ==> IsDuplicate(history + Items(ids[..n], hash), Item(ids[n], hash)))
  }

  /** What is handed on, and recorded, are exactly the parts up to the first that repeats a record. */
  lemma {:induction false} DeliversUpToRepeat(history: seq<Item>, ids: seq<string>, hash: int, n: nat)
    requires RepeatsFirstAt(history, ids, hash, n)
    ensures Deliver(history, ids, hash) == Outcome(history + Items(ids[..n], hash), ids[..n])
    decreases |ids|
  {
    assert history + Items([], hash) == history;
    assert ids[..0] == [];
    if n > 0 {
      var item := Item(ids[0], hash);
      assert !IsDuplicate(history + Items(ids[..0], hash), item);
      RepeatsLater(history, ids, hash, n);
      DeliversUpToRepeat(history + [item], ids[1..], hash, n - 1);
      ItemsBehind(history, ids, hash, n);
      assert [ids[0]] + ids[1..][..n - 1] == ids[..n];
    }
  }

  lemma ItemsBehind(history: seq<Item>, ids: seq<string>, hash: int, n: nat)
    requires 0 < n <= |ids|
    ensures history + [Item(ids[0], hash)] + Items(ids[1..][..n - 1], hash) == history + Items(ids[..n], hash)
  {
    assert Items(ids[..n], hash) == [Item(ids[0], hash)] + Items(ids[1..][..n - 1], hash);
  }

  lemma RepeatsLater(history: seq<Item>, ids: seq<string>, hash: int, n: nat)
    requires n > 0 && RepeatsFirstAt(history, ids, hash, n)
    ensures RepeatsFirstAt(history + [Item(ids[0], hash)], ids[1..], hash, n - 1)
  {
    var longer := history + [Item(ids[0], hash)];
    forall j | 0 <= j < |ids[1..]| && j < n
      ensures longer + Items(ids[1..][..j], hash) == history + Items(ids[..j + 1], hash)
    {
      ItemsBehind(history, ids, hash, j + 1);
    }
    forall j | 0 <= j < n - 1
      ensures !IsDuplicate(longer + Items(ids[1..][..j], hash), Item(ids[1..][j], hash))
    {
      assert !IsDuplicate(history + Items(ids[..j + 1], hash), Item(ids[j + 1], hash));
    }
  }

  predicate AmongLastEight(ids: seq<string>, id: string) {
    exists k :: 0 <= k < |ids| && |ids| - RECENT_UPDATES <= k && ids[k] == id
  }

  lemma RecentIsDuplicate(history: seq<Item>, emitted: seq<string>, hash: int, id: string)
    requires id != "" && AmongLastEight(emitted, id)
    ensures IsDuplicate(history + Items(emitted, hash), Item(id, hash))
  {
    var all, n, m := history + Items(emitted, hash), |history|, |emitted|;
    var k :| 0 <= k < m && m - RECENT_UPDATES <= k && emitted[k] == id;
    var last := LastOf(emitted, id, k);
    DuplicateMeans(all, Item(id, hash));
    assert LastEight(all, n + last) && all[n + last] == Item(id, hash);
    assert forall j :: n + last < j < |all| ==> all[j] == Item(emitted[j - n], hash);
  }

  lemma DuplicateIsRecent(history: seq<Item>, emitted: seq<string>, hash: int, id: string)
    requires id != "" && emitted != [] && emitted[0] == id
    requires IsDuplicate(history + Items(emitted, hash), Item(id, hash))
    ensures AmongLastEight(emitted, id)
  {
    var all, n := history + Items(emitted, hash), |history|;
    DuplicateMeans(all, Item(id, hash));
    var k :| LastEight(all, k) && all[k] == Item(id, hash) && forall j :: k < j < |all| ==> all[j].id != id;
    assert all[n].id == id;
    assert k >= n && all[k] == Item(emitted[k - n], hash);
    assert emitted[k - n] == id;
  }

  /**
   * When an event is delivered twice in a row, the second delivery is silent exactly when the first
   * one emitted nothing or the id of its first part is among the last eight ids it emitted.
   */
  lemma RedeliveryIsSilent(history: seq<Item>, ids: seq<string>, hash: int)
    requires forall i :: 0 <= i < |ids| ==> ids[i] != ""
    ensures var first := Deliver(history, ids, hash);
      Deliver(first.history, ids, hash).emitted == [] <==> first.emitted == [] || AmongLastEight(first.emitted, ids[0])
  {
    var first := Deliver(history, ids, hash);
    DeliverRecordsWhatItEmits(history, ids, hash);
    if first.emitted != [] {
      if AmongLastEight(first.emitted, ids[0]) {
        RecentIsDuplicate(history, first.emitted, hash, ids[0]);
      } else if IsDuplicate(first.history, Item(ids[0], hash)) {
        DuplicateIsRecent(history, first.emitted, hash, ids[0]);
      }
    }
  }

  lemma {:induction false} LastOf(ids: seq<string>, id: string, k: nat) returns (last: nat)
    requires k < |ids| && ids[k] == id
    ensures k <= last < |ids| && ids[last] == id && forall j :: last < j < |ids| ==> ids[j] != id
    decreases |ids| - k
  {
    if j :| k < j < |ids| && ids[j] == id {
      last := LastOf(ids, id, j);
    } else {
      last := k;
    }
  }

  /** The newest record of id among the last n. */
  function NewestWithin(records: seq<Item>, id: string, n: nat): Option<int>
    decreases n
  {
    if n == 0 || records == [] then None
    else
      var last := records[|records| - 1];
      if last.id == id then Some(last.hash) else NewestWithin(records[..|records| - 1], id, n - 1)
  }

  predicate IsNewestAt(records: seq<Item>, item: Item, k: nat)
    requires k < |records|
  {
    records[k] == item && forall j :: k < j < |records| ==> records[j].id != item.id
  }

  /** One of the last n records is the newest of its id. */
  predicate HasNewestWithin(records: seq<Item>, item: Item, n: nat) {
    exists k :: 0 <= k < |records| && |records| - n <= k && IsNewestAt(records, item, k)
  }

  lemma {:induction false} NewestWithinMeans(records: seq<Item>, item: Item, n: nat)
    ensures NewestWithin(records, item.id, n) == Some(item.hash) <==> HasNewestWithin(records, item, n)
    decreases n
  {
    if n > 0 && records != [] {
      var m := |records| - 1;
      if records[m].id == item.id {
        if records[m] == item {
          assert IsNewestAt(records, item, m);
        }
      } else {
        NewestWithinMeans(records[..m], item, n - 1);
        assert forall k :: 0 <= k < m ==> IsNewestAt(records[..m], item, k) == IsNewestAt(records, item, k) by {
          assert forall j :: 0 <= j < m ==> records[..m][j] == records[j];
        }
      }
    }
  }

  lemma DuplicateIsWithin(history: seq<Item>, item: Item)
    requires item.id != ""
    ensures IsDuplicate(history, item) <==> NewestWithin(history, item.id, RECENT_UPDATES) == Some(item.hash)
  {
    DuplicateMeans(history, item);
    NewestWithinMeans(history, item, RECENT_UPDATES);
    if k :| LastEight(history, k) && history[k] == item && forall j :: k < j < |history| ==> history[j].id != item.id {
      assert IsNewestAt(history, item, k);
    }
    if k :| 0 <= k < |history| && |history| - RECENT_UPDATES <= k && IsNewestAt(history, item, k) {
      assert LastEight(history, k);
    }
  }

  lemma {:induction false} NewestSplits(older: seq<Item>, newer: seq<Item>, id: string, n: nat)
    ensures NewestWithin(older + newer, id, n) ==
      match NewestWithin(newer, id, n)
      case Some(hash) => Some(hash)
      case None => if |newer| < n then NewestWithin(older, id, n - |newer|) else None
    decreases n
  {
    if newer == [] {
      assert older + newer == older;
    } else if n > 0 {
      var m := |newer| - 1;
      assert (older + newer)[..|older + newer| - 1] == older + newer[..m];
      NewestSplits(older, newer[..m], id, n - 1);
    }
  }

  /**
   * With other updates recorded between two deliveries of an event, the second one is silent exactly
   * when the newest of them about its first part has the event's hash, or, if the last eight hold
   * none, the first delivery left such a record among those that the window still reaches.
   */
  lemma RedeliveryAfterOthers(history: seq<Item>, ids: seq<string>, hash: int, between: seq<Item>)
    requires ids != [] && ids[0] != ""
    ensures var first := Deliver(history, ids, hash);
      Deliver(first.history + between, ids, hash).emitted == [] <==>
        match NewestWithin(between, ids[0], RECENT_UPDATES)
        case Some(h) => h == hash
        case None =>
          |between| < RECENT_UPDATES
          && NewestWithin(first.history, ids[0], RECENT_UPDATES - |between|) == Some(hash)
  {
    var first := Deliver(history, ids, hash);
    DuplicateIsWithin(first.history + between, Item(ids[0], hash));
    NewestSplits(first.history, between, ids[0], RECENT_UPDATES);
  }

  /** An event of new, distinct ids is emitted whole. */
  lemma {:induction false} NewIsEmitted(history: seq<Item>, ids: seq<string>, hash: int)
    requires forall i :: 0 <= i < |ids| ==> ids[i] != ""
    requires NoDuplicates(ids)
    requires forall i, h :: 0 <= i < |ids| && 0 <= h < |history| ==> history[h].id != ids[i]
    ensures Deliver(history, ids, hash).emitted == ids
    decreases |ids|
  {
    if ids != [] {
      var item := Item(ids[0], hash);
      DuplicateMeans(history, item);
      assert forall i :: 0 <= i < |ids[1..]| ==> ids[1..][i] == ids[i + 1];
      NewIsEmitted(history + [item], ids[1..], hash);
    }
  }

  /** Every event of more than eight new parts is emitted again when it is delivered again. */
  lemma LongEventsRepeat(history: seq<Item>, ids: seq<string>, hash: int)
    requires forall i :: 0 <= i < |ids| ==> ids[i] != ""
    requires NoDuplicates(ids) && |ids| > RECENT_UPDATES
    requires forall i, h :: 0 <= i < |ids| && 0 <= h < |history| ==> history[h].id != ids[i]
    ensures Deliver(history, ids, hash).emitted == ids
    ensures Deliver(Deliver(history, ids, hash).history, ids, hash).emitted != []
  {
    NewIsEmitted(history, ids, hash);
    RedeliveryIsSilent(history, ids, hash);
  }

  /** Nine letters at the start are one. */
  lemma NineLettersRepeat() returns (ids: seq<string>)
    ensures |ids| == 9 && Deliver([], ids, 0).emitted == ids
    ensures Deliver(Deliver([], ids, 0).history, ids, 0).emitted != []
  {
    ids := ["a", "b", "c", "d", "e", "f", "g", "h", "i"];
    LongEventsRepeat([], ids, 0);
  }
}

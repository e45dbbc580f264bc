/**
 * One page of backfill, and walking backwards through a conversation by feeding each page's cursor
 * back (FetchMessages in pkg/connector/backfill.go). Message times are microseconds, cursor times
 * milliseconds of Unix time.
 */
module Paging {
  import opened Basics
  import opened Cursors

  datatype Message = Message(id: string, timestamp: int)

  /** Milliseconds, rounded down. */
  function Millis(micros: int): int {
    micros / 1000
  }

  datatype Anchor = Anchor(id: Option<string>, timestamp: int)

  /** anchor.id is None when the stored id is not one of this login. */
  datatype Params = Params(cursor: string, anchor: Option<Anchor>, forward: bool, count: int)

  datatype Error = BadAnchor | FetchFailed

  /** The phone's answer, newest message first. */
  datatype Answer = Answer(messages: seq<Message>, cursor: Option<Cursor>)

  /** What is known of the conversation's read state. */
  datatype ReadState = ReadState(unread: bool, readUpTo: string, readUpToTS: int)

  datatype Page = Page(
    messages: seq<Message>, forward: bool, cursor: string, hasMore: bool, aggressiveDeduplication: bool, markRead: bool)

  predicate AnchorIsBad(params: Params) {
    params.anchor.Some? && params.anchor.value.id.None?
  }

  function AnchorID(params: Params): string
    requires !AnchorIsBad(params)
  {
    if params.anchor.Some? then params.anchor.value.id.value else ""
  }

  function AnchorTimestamp(params: Params): int {
    if params.anchor.Some? then params.anchor.value.timestamp else ZERO_TIME
  }

  function GivenCursor(params: Params): Option<Cursor> {
    if params.cursor == "" then None else ParsePaginationCursor(params.cursor)
  }

  /** The older of the given cursor and the anchor message, when going backwards. */
  function UsedCursor(params: Params): Option<Cursor>
    requires !AnchorIsBad(params)
  {
    var given := GivenCursor(params);
    if params.anchor.None? || params.forward then given
    else
      var millis := Millis(params.anchor.value.timestamp);
      if given.None? || millis < given.value.lastItemTimestamp then Some(Cursor(AnchorID(params), millis)) else given
  }

  predicate Skipped(params: Params, m: Message)
    requires !AnchorIsBad(params)
  {
    var used := UsedCursor(params);
    if !params.forward && used.Some? && Millis(m.timestamp) >= used.value.lastItemTimestamp then true
    else (params.forward && m.timestamp < AnchorTimestamp(params)) || AnchorID(params) == m.id
  }

  /** hasIntent says for whose messages the bridge has somebody to send them as. */
  function KeptOf(params: Params, hasIntent: Message -> bool, messages: seq<Message>): seq<Message>
    requires !AnchorIsBad(params)
  {
    Filter(messages, Keeper(params, hasIntent))
  }

  function Keeper(params: Params, hasIntent: Message -> bool): Message -> bool
    requires !AnchorIsBad(params)
  {
    m => !Skipped(params, m) && hasIntent(m)
  }

  function NextCursor(answer: Answer): string {
    var next := MakePaginationCursor(answer.cursor);
    if next == "" && answer.messages != [] then
      var oldest := answer.messages[|answer.messages| - 1];
      MakePaginationCursor(Some(Cursor(oldest.id, Millis(oldest.timestamp))))
    else next
  }

  function MarkRead(meta: Option<ReadState>, last: Message, lastRaw: Message): bool {
    meta.Some? && (!meta.value.unread || meta.value.readUpToTS >= last.timestamp || meta.value.readUpTo == lastRaw.id)
  }

  function PageOf(params: Params, hasIntent: Message -> bool, answer: Answer, meta: Option<ReadState>): Page
    requires !AnchorIsBad(params)
  {
    Completed(params, KeptOf(params, hasIntent, Reversed(answer.messages)), answer, meta)
  }

  function Completed(params: Params, messages: seq<Message>, answer: Answer, meta: Option<ReadState>): Page
    requires !AnchorIsBad(params)
  {
    var empty := Page(messages, UsedCursor(params).None?, "", false, false, false);
    if messages == [] || answer.messages == [] then empty
    else if params.forward then
      empty.(hasMore := true, aggressiveDeduplication := params.anchor.Some?,
             markRead := MarkRead(meta, messages[|messages| - 1], answer.messages[0]))
    else empty.(hasMore := true, cursor := NextCursor(answer))
  }

  /** A message is on the page exactly when it is in the answer, somebody can send it, and it is none of these. */
  lemma PageHolds(params: Params, hasIntent: Message -> bool, answer: Answer, meta: Option<ReadState>, m: Message)
    requires !AnchorIsBad(params)
    ensures m in PageOf(params, hasIntent, answer, meta).messages <==>
      && m in answer.messages && hasIntent(m) && m.id != AnchorID(params)
      && if params.forward then m.timestamp >= AnchorTimestamp(params)
         else UsedCursor(params).None? || Millis(m.timestamp) < UsedCursor(params).value.lastItemTimestamp
  {
    ReversedHas(answer.messages, m);
    FilterIs(Reversed(answer.messages), Keeper(params, hasIntent));
  }

  method ReverseInPlace(a: array<Message>)
    modifies a
    ensures a[..] == Reversed(old(a[..]))
  {
    var i, j := 0, a.Length - 1;
    ghost var was := a[..];
    while i < j
      invariant 0 <= i <= j + 1 && i + j == a.Length - 1
      invariant forall k :: 0 <= k < i ==> a[k] == was[a.Length - 1 - k]
      invariant forall k :: i <= k <= j ==> a[k] == was[k]
      invariant forall k :: j < k < a.Length ==> a[k] == was[a.Length - 1 - k]
    {
      a[i], a[j] := a[j], a[i];
      i, j := i + 1, j - 1;
    }
  }

  method ChooseCursor(params: Params) returns (cursor: Option<Cursor>, anchorTS: int, anchorMsgID: string)
    requires !AnchorIsBad(params)
    ensures cursor == UsedCursor(params) && anchorTS == AnchorTimestamp(params) && anchorMsgID == AnchorID(params)
  {
    cursor := None;
    if params.cursor != "" {
      cursor := ParsePaginationCursor(params.cursor);
    }
    anchorTS, anchorMsgID := ZERO_TIME, "";
    if params.anchor.Some? {
      anchorMsgID := params.anchor.value.id.value;
      anchorTS := params.anchor.value.timestamp;
      if !params.forward {
        var tsMilli := Millis(anchorTS);
        if cursor.None? || tsMilli < cursor.value.lastItemTimestamp {
          cursor := Some(Cursor(anchorMsgID, tsMilli));
        }
      }
    }
  }

  method FilterMessages(params: Params, cursor: Option<Cursor>, anchorTS: int, anchorMsgID: string,
                        hasIntent: Message -> bool, raw: array<Message>)
      returns (messages: seq<Message>)
    requires !AnchorIsBad(params)
    requires cursor == UsedCursor(params) && anchorTS == AnchorTimestamp(params) && anchorMsgID == AnchorID(params)
    ensures messages == KeptOf(params, hasIntent, raw[..])
  {
    messages := [];
    ghost var keep := Keeper(params, hasIntent);
    for i := 0 to raw.Length
      invariant messages == Filter(raw[..i], keep)
    {
      var msg := raw[i];
      assert raw[..i + 1] == raw[..i] + [msg];
      FilterStep(raw[..i], keep, msg);
      if !params.forward && cursor.Some? && Millis(msg.timestamp) >= cursor.value.lastItemTimestamp {
        continue;
      } else if (params.forward && msg.timestamp < anchorTS) || anchorMsgID == msg.id {
        continue;
      }
      if !hasIntent(msg) {
        continue;
      }
      messages := messages + [msg];
    }
    assert raw[..raw.Length] == raw[..];
  }

  /** The phone is asked once, with the count and the cursor. */
  method FetchMessages(params: Params, hasIntent: Message -> bool, meta: Option<ReadState>,
                       fetch: (int, Option<Cursor>) -> Option<Answer>)
      returns (page: Result<Page, Error>)
    ensures page ==
      if AnchorIsBad(params) then Err(BadAnchor)
      else match fetch(params.count, UsedCursor(params))
        case None => Err(FetchFailed)
        case Some(answer) => Ok(PageOf(params, hasIntent, answer, meta))
  {
    if params.anchor.Some? && params.anchor.value.id.None? {
      return Err(BadAnchor);
    }
    var cursor, anchorTS, anchorMsgID := ChooseCursor(params);
    var resp := fetch(params.count, cursor);
    if resp.None? {
      return Err(FetchFailed);
    }
    var raw := new Message[|resp.value.messages|](i requires 0 <= i < |resp.value.messages| => resp.value.messages[i]);
    assert raw[..] == resp.value.messages;
    ReverseInPlace(raw);
    var messages := FilterMessages(params, cursor, anchorTS, anchorMsgID, hasIntent, raw);
    var fetched := FinishPage(params, messages, raw, cursor, resp.value, meta);
    assert fetched.messages == KeptOf(params, hasIntent, Reversed(resp.value.messages));
    return Ok(fetched);
  }

  /** The fields of the page once its messages are known; raw is the reversed answer. */
  method FinishPage(params: Params, messages: seq<Message>, raw: array<Message>, cursor: Option<Cursor>, answer: Answer,
                    meta: Option<ReadState>)
      returns (page: Page)
    requires !AnchorIsBad(params) && cursor == UsedCursor(params) && raw[..] == Reversed(answer.messages)
    requires raw.Length == 0 ==> messages == []
    ensures page == Completed(params, messages, answer, meta)
  {
    page := Page(messages, cursor.None?, "", false, false, false);
    if |messages| == 0 {
      return;
    }
    page := page.(hasMore := true);
    if params.forward {
      page := page.(aggressiveDeduplication := params.anchor.Some?);
      var read := ReadsUpTo(messages, raw, answer, meta);
      page := page.(markRead := read);
    } else {
      var next := ChooseNext(raw, answer);
      page := page.(cursor := next);
    }
  }

  method ReadsUpTo(messages: seq<Message>, raw: array<Message>, answer: Answer, meta: Option<ReadState>)
      returns (markRead: bool)
    requires messages != [] && answer.messages != [] && raw[..] == Reversed(answer.messages)
    ensures markRead == MarkRead(meta, messages[|messages| - 1], answer.messages[0])
  {
    markRead := false;
    if meta.Some? {
      ReversedAt(answer.messages, |answer.messages| - 1);
      var lastWrappedMsg, lastRawMsg := messages[|messages| - 1], raw[raw.Length - 1];
      assert lastRawMsg == raw[..][raw.Length - 1];
      markRead :=
        !meta.value.unread || !(meta.value.readUpToTS < lastWrappedMsg.timestamp) || meta.value.readUpTo == lastRawMsg.id;
    }
  }

  method ChooseNext(raw: array<Message>, answer: Answer) returns (next: string)
    requires raw[..] == Reversed(answer.messages)
    ensures next == NextCursor(answer)
  {
    next := MakePaginationCursor(answer.cursor);
    if next == "" && raw.Length > 0 {
      assert raw[..][0] == answer.messages[|answer.messages| - 1];
      next := MakePaginationCursor(Some(Cursor(raw[0].id, Millis(raw[0].timestamp))));
    }
  }

  // ----- What a call asks for, and what its page says -----

  /** The cursors there are: the given one, if it parses, and going backwards that of the anchor. */
  predicate IsCandidate(params: Params, c: Cursor) {
    || (params.cursor != "" && ParsePaginationCursor(params.cursor) == Some(c))
    || (!params.forward && params.anchor.Some? && params.anchor.value.id == Some(c.lastItemID)
        && c.lastItemTimestamp == Millis(params.anchor.value.timestamp))
  }

  /** The phone is asked with the oldest candidate, the given one of two equally old, and with none if there is none. */
  lemma OldestIsUsed(params: Params)
    requires !AnchorIsBad(params)
    ensures match UsedCursor(params)
      case None => forall c :: !IsCandidate(params, c)
      case Some(used) =>
        && IsCandidate(params, used)
        && (forall c :: IsCandidate(params, c) ==> used.lastItemTimestamp <= c.lastItemTimestamp)
        && (GivenCursor(params).Some? && GivenCursor(params).value.lastItemTimestamp == used.lastItemTimestamp ==>
            used == GivenCursor(params).value)
  {
    var given := GivenCursor(params);
    if given.Some? {
      assert IsCandidate(params, given.value);
    }
    if params.anchor.Some? && !params.forward {
      assert IsCandidate(params, Cursor(params.anchor.value.id.value, Millis(params.anchor.value.timestamp)));
    }
  }

  /**
   * There is more exactly if the page has a message. Backwards it then carries the phone's cursor, or else
   * that of the oldest message answered, kept or not; forwards it carries none and is deduplicated
   * against the anchor, if there is one.
   */
  lemma PageSays(params: Params, hasIntent: Message -> bool, answer: Answer, meta: Option<ReadState>)
    requires !AnchorIsBad(params)
    ensures var page := PageOf(params, hasIntent, answer, meta);
      && (page.hasMore <==> page.messages != [])
      && (page.aggressiveDeduplication <==> page.messages != [] && params.forward && params.anchor.Some?)
      && (page.messages != [] ==> answer.messages != [])
      && (page.messages == [] || params.forward ==> page.cursor == "")
      && (page.messages != [] && !params.forward ==>
          var oldest := answer.messages[|answer.messages| - 1];
          page.cursor == MakePaginationCursor(Some(
            if answer.cursor.Some? then answer.cursor.value else Cursor(oldest.id, Millis(oldest.timestamp)))))
      && (page.forward <==> forall c :: !IsCandidate(params, c))
  {
    var page := PageOf(params, hasIntent, answer, meta);
    OldestIsUsed(params);
    if page.messages != [] {
      PageHolds(params, hasIntent, answer, meta, page.messages[0]);
    }
  }

  /**
   * A page is marked as read exactly if it leads forwards, has a message, and the conversation is known to
   * be read: as a whole, or up to the time of the page's last message, or up to the newest message answered.
   */
  lemma ReadExactly(params: Params, hasIntent: Message -> bool, answer: Answer, meta: Option<ReadState>)
    requires !AnchorIsBad(params)
    ensures var page := PageOf(params, hasIntent, answer, meta);
      page.markRead <==>
        && params.forward && page.messages != [] && answer.messages != [] && meta.Some?
        && (|| !meta.value.unread
            || meta.value.readUpToTS >= page.messages[|page.messages| - 1].timestamp
            || meta.value.readUpTo == answer.messages[0].id)
  {
  }

  lemma {:induction false} FilterPlace(s: seq<Message>, keep: Message -> bool, j: nat) returns (b: nat)
    requires j < |Filter(s, keep)|
    ensures b < |s| && s[b] == Filter(s, keep)[j]
  {
    if keep(s[0]) && j == 0 {
      b := 0;
    } else {
      var k := FilterPlace(s[1..], keep, if keep(s[0]) then j - 1 else j);
      b := k + 1;
    }
  }

  lemma {:induction false} FilterKeepsPlaces(s: seq<Message>, keep: Message -> bool, i: nat, j: nat) returns (a: nat, b: nat)
    requires i < j < |Filter(s, keep)|
    ensures a < b < |s| && s[a] == Filter(s, keep)[i] && s[b] == Filter(s, keep)[j]
  {
    if keep(s[0]) {
      if i == 0 {
        var k := FilterPlace(s[1..], keep, j - 1);
        a, b := 0, k + 1;
      } else {
        var a', b' := FilterKeepsPlaces(s[1..], keep, i - 1, j - 1);
        a, b := a' + 1, b' + 1;
      }
    } else {
      var a', b' := FilterKeepsPlaces(s[1..], keep, i, j);
      a, b := a' + 1, b' + 1;
    }
  }

  lemma ReversedAt(s: seq<Message>, c: nat)
    requires c < |s|
    ensures |Reversed(s)| == |s| && Reversed(s)[c] == s[|s| - 1 - c]
  {
  }

  lemma KeptInOrder(s: seq<Message>, keep: Message -> bool, i: nat, j: nat) returns (a: nat, b: nat)
    requires i < j < |Filter(Reversed(s), keep)|
    ensures b < a < |s| && s[a] == Filter(Reversed(s), keep)[i] && s[b] == Filter(Reversed(s), keep)[j]
  {
    var c, d := FilterKeepsPlaces(Reversed(s), keep, i, j);
    ReversedAt(s, c);
    ReversedAt(s, d);
    a, b := |s| - 1 - c, |s| - 1 - d;
  }

  /** The kept messages stand in the order of the answer, reversed: of two on a page the earlier was answered later. */
  lemma PageIsInOrder(params: Params, hasIntent: Message -> bool, answer: Answer, meta: Option<ReadState>, i: nat, j: nat)
      returns (a: nat, b: nat)
    requires !AnchorIsBad(params)
    requires i < j < |PageOf(params, hasIntent, answer, meta).messages|
    ensures var page := PageOf(params, hasIntent, answer, meta);
      b < a < |answer.messages| && answer.messages[a] == page.messages[i] && answer.messages[b] == page.messages[j]
  {
    var keep := Keeper(params, hasIntent);
    assert PageOf(params, hasIntent, answer, meta).messages == Filter(Reversed(answer.messages), keep);
    a, b := KeptInOrder(answer.messages, keep, i, j);
  }
}

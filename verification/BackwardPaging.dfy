/**
 * Walking backwards through a conversation: each page's cursor is fed back into FetchMessages
 * (pkg/connector/backfill.go), with a phone that gives no cursor of its own.
 */
module BackwardPaging {
  import opened Basics
  import opened Cursors
  import opened Paging

  /** One call: the count and the anchor may change from page to page. */
  datatype Request = Request(count: int, anchor: Option<Anchor>, hasIntent: Message -> bool, answer: Answer)

  ghost predicate NewestFirst(messages: seq<Message>) {
    forall i, j :: 0 <= i < j < |messages| ==> messages[i].timestamp >= messages[j].timestamp
  }

  ghost predicate OldestFirst(messages: seq<Message>) {
    forall i, j :: 0 <= i < j < |messages| ==> messages[i].timestamp <= messages[j].timestamp
  }

  /** The phone lists messages newest first; the anchor is a message of this login. */
  ghost predicate WellAnswered(r: Request) {
    NewestFirst(r.answer.messages) && (r.anchor.Some? ==> r.anchor.value.id.Some?)
  }

  function ParamsOf(cursor: string, r: Request): Params {
    Params(cursor, r.anchor, false, r.count)
  }

  ghost function UsedFor(cursor: string, r: Request): Option<Cursor>
    requires WellAnswered(r)
  {
    UsedCursor(ParamsOf(cursor, r))
  }

  ghost function PageFor(cursor: string, r: Request): Page
    requires WellAnswered(r)
  {
    PageOf(ParamsOf(cursor, r), r.hasIntent, r.answer, None)
  }

  // ----- One page -----

  lemma {:induction false} FilterKeepsOrder(s: seq<Message>, keep: Message -> bool)
    requires OldestFirst(s)
    ensures OldestFirst(Filter(s, keep))
  {
    if s != [] {
      FilterKeepsOrder(s[1..], keep);
      FilterIs(s[1..], keep);
      forall m | m in Filter(s[1..], keep)
        ensures s[0].timestamp <= m.timestamp
      {
        var i :| 0 <= i < |s[1..]| && s[1..][i] == m;
        assert s[i + 1] == m;
      }
    }
  }

  lemma {:induction false} FilterKeepsDistinct(s: seq<Message>, keep: Message -> bool)
    requires NoDuplicates(s)
    ensures NoDuplicates(Filter(s, keep))
  {
    if s != [] {
      FilterKeepsDistinct(s[1..], keep);
      FilterIs(s[1..], keep);
    }
  }

  lemma ReversedIs(s: seq<Message>)
    ensures |Reversed(s)| == |s| && forall m :: m in Reversed(s) <==> m in s
    ensures NewestFirst(s) ==> OldestFirst(Reversed(s))
    ensures NoDuplicates(s) ==> NoDuplicates(Reversed(s))
  {
    forall m: Message
      ensures m in Reversed(s) <==> m in s
    {
      ReversedHas(s, m);
    }
  }

  /** A page is in ascending order, comes from the answer, and is strictly older than the cursor used. */
  lemma PageIsOlder(cursor: string, r: Request)
    requires WellAnswered(r)
    ensures var page, used := PageFor(cursor, r), UsedFor(cursor, r);
      && OldestFirst(page.messages)
      && (forall m :: m in page.messages ==> m in r.answer.messages && r.hasIntent(m))
      && (used.Some? ==> forall m :: m in page.messages ==> Millis(m.timestamp) < used.value.lastItemTimestamp)
      && (NoDuplicates(r.answer.messages) ==> NoDuplicates(page.messages))
  {
    var params := ParamsOf(cursor, r);
    var keep := Keeper(params, r.hasIntent);
    var reversed := Reversed(r.answer.messages);
    ReversedIs(r.answer.messages);
    FilterIs(reversed, keep);
    FilterKeepsOrder(reversed, keep);
    if NoDuplicates(r.answer.messages) {
      FilterKeepsDistinct(reversed, keep);
    }
    assert PageFor(cursor, r).messages == Filter(reversed, keep);
  }

  /**
   * The cursor that goes out with a page parses, and its time is no newer than the page's oldest
   * message. What a phone does with the cursor, and whether it made the cursor itself, plays no part.
   */
  predicate Steers(page: Page)
    requires page.messages != []
  {
    var given := GivenCursor(Params(page.cursor, None, false, 0));
    given.Some? && given.value.lastItemTimestamp <= Millis(page.messages[0].timestamp)
  }

  /** The call after a page uses the page's cursor, or an older anchor. */
  lemma UsedIsNoNewer(page: Page, next: Request)
    requires WellAnswered(next) && page.messages != [] && Steers(page)
    ensures var given, used := GivenCursor(ParamsOf(page.cursor, next)), UsedFor(page.cursor, next);
      && given == GivenCursor(Params(page.cursor, None, false, 0))
      && used.Some? && used.value.lastItemTimestamp <= given.value.lastItemTimestamp
  {
  }

  /**
   * Behind a page that steers, the next call uses a cursor that is strictly older than the one used
   * for the page and no newer than any message of the page.
   */
  lemma CursorDrops(cursor: string, r: Request, next: Request)
    requires WellAnswered(r) && WellAnswered(next)
    requires PageFor(cursor, r).messages != [] && Steers(PageFor(cursor, r))
    ensures var page, used := PageFor(cursor, r), UsedFor(cursor, r);
      var then' := UsedFor(page.cursor, next);
      && then'.Some?
      && (used.Some? ==> then'.value.lastItemTimestamp < used.value.lastItemTimestamp)
      && (forall m :: m in page.messages ==> then'.value.lastItemTimestamp <= Millis(m.timestamp))
  {
    var page := PageFor(cursor, r);
    PageIsOlder(cursor, r);
    UsedIsNoNewer(page, next);
    assert page.messages[0] in page.messages;
    forall m | m in page.messages
      ensures Millis(page.messages[0].timestamp) <= Millis(m.timestamp)
    {
      var i :| 0 <= i < |page.messages| && page.messages[i] == m;
    }
  }

  /** Every message of the later page is strictly older, by the millisecond, than every one of the earlier. */
  ghost predicate Descends(earlier: Page, later: Page) {
    forall m, n :: m in earlier.messages && n in later.messages ==> Millis(n.timestamp) < Millis(m.timestamp)
  }

  ghost predicate FollowsOn(page: Page, next: Request) {
    WellAnswered(next) ==> Descends(page, PageFor(page.cursor, next))
  }

  /**
   * Steering is what keeps the pages apart: the next page lies strictly behind this one whatever the
   * phone answers, if and only if this page steers. When it does not, the same answer again repeats
   * the page's oldest message.
   */
  lemma SteeringIsNecessary(cursor: string, r: Request)
    requires WellAnswered(r) && PageFor(cursor, r).messages != []
    ensures (forall next :: FollowsOn(PageFor(cursor, r), next)) <==> Steers(PageFor(cursor, r))
  {
    var page := PageFor(cursor, r);
    if Steers(page) {
      forall next
        ensures FollowsOn(page, next)
      {
        if WellAnswered(next) {
          CursorDrops(cursor, r, next);
          PageIsOlder(page.cursor, next);
        }
      }
    } else {
      OldestComesAgain(cursor, r);
      var next := PageFor(page.cursor, r);
      assert page.messages[0] in page.messages && page.messages[0] in next.messages;
      assert !Descends(page, next);
      assert !FollowsOn(page, r);
    }
  }

  lemma OldestComesAgain(cursor: string, r: Request)
    requires WellAnswered(r) && PageFor(cursor, r).messages != [] && !Steers(PageFor(cursor, r))
    ensures PageFor(cursor, r).messages[0] in PageFor(PageFor(cursor, r).cursor, r).messages
  {
    var page := PageFor(cursor, r);
    var oldest := page.messages[0];
    assert oldest in page.messages;
    PageHolds(ParamsOf(cursor, r), r.hasIntent, r.answer, None, oldest);
    PageHolds(ParamsOf(page.cursor, r), r.hasIntent, r.answer, None, oldest);
    NotSkippedAgain(cursor, page.cursor, r, oldest);
  }

  lemma NotSkippedAgain(cursor: string, next: string, r: Request, m: Message)
    requires WellAnswered(r)
    requires var used := UsedFor(cursor, r); used.None? || Millis(m.timestamp) < used.value.lastItemTimestamp
    requires var given := GivenCursor(Params(next, None, false, 0));
      given.None? || given.value.lastItemTimestamp > Millis(m.timestamp)
    ensures var used := UsedFor(next, r); used.None? || Millis(m.timestamp) < used.value.lastItemTimestamp
  {
  }

  // ----- Which ids steer -----

  function CursorOf(m: Message): Cursor {
    Cursor(m.id, Millis(m.timestamp))
  }

  function OldestOf(answer: Answer): Message
    requires answer.messages != []
  {
    answer.messages[|answer.messages| - 1]
  }

  ghost predicate IsOrdinary(m: Message) {
    IsCanonical(m.id) && IsInt64(m.timestamp)
  }

  lemma PrintedParses(m: Message)
    requires IsOrdinary(m)
    ensures var printed := MakePaginationCursor(Some(CursorOf(m)));
      printed != "" && ParsePaginationCursor(printed) == Some(CursorOf(m))
  {
    RoundTrip(CursorOf(m));
  }

  lemma CursorOfPage(cursor: string, r: Request)
    requires WellAnswered(r) && r.answer.cursor.None? && PageFor(cursor, r).messages != []
    ensures r.answer.messages != [] && PageFor(cursor, r).hasMore
    ensures PageFor(cursor, r).cursor == MakePaginationCursor(Some(CursorOf(OldestOf(r.answer))))
  {
    PageIsOlder(cursor, r);
    assert PageFor(cursor, r).messages[0] in r.answer.messages;
  }

  lemma OldestIsOldest(answer: Answer, m: Message)
    requires NewestFirst(answer.messages) && m in answer.messages
    ensures Millis(OldestOf(answer).timestamp) <= Millis(m.timestamp)
  {
    var i :| 0 <= i < |answer.messages| && answer.messages[i] == m;
  }

  /** With no cursor of the phone's own, an oldest message with a decimal id steers. */
  lemma OrdinarySteers(cursor: string, r: Request)
    requires WellAnswered(r) && r.answer.cursor.None? && PageFor(cursor, r).messages != []
    requires r.answer.messages != [] ==> IsOrdinary(OldestOf(r.answer))
    ensures Steers(PageFor(cursor, r))
  {
    var page := PageFor(cursor, r);
    CursorOfPage(cursor, r);
    PrintedParses(OldestOf(r.answer));
    PageIsOlder(cursor, r);
    assert page.messages[0] in page.messages;
    OldestIsOldest(r.answer, page.messages[0]);
  }

  lemma {:induction false} FilterAgrees<T(!new)>(s: seq<T>, keep: T -> bool, keep': T -> bool)
    requires forall x :: keep(x) == keep'(x)
    ensures Filter(s, keep) == Filter(s, keep')
  {
    if s != [] {
      FilterAgrees(s[1..], keep, keep');
    }
  }

  /** What counts is the cursor that is used, not the string it came in. */
  lemma SamePage(cursor: string, cursor': string, r: Request)
    requires WellAnswered(r) && UsedFor(cursor, r) == UsedFor(cursor', r)
    ensures PageFor(cursor, r) == PageFor(cursor', r)
  {
    FilterAgrees(
      Reversed(r.answer.messages), Keeper(ParamsOf(cursor, r), r.hasIntent), Keeper(ParamsOf(cursor', r), r.hasIntent));
  }

  /** The oldest message of the answer prints to no cursor, and the phone gives none. */
  ghost predicate Unreadable(r: Request) {
    && WellAnswered(r) && r.answer.cursor.None? && r.anchor.None? && PageFor("", r).messages != []
    && GivenCursor(ParamsOf(PageFor("", r).cursor, r)).None?
  }

  /** An id that is no number leaves the next call without a cursor: the first page comes back for ever. */
  lemma {:induction false} FirstPageRepeats(cursor: string, requests: seq<Request>, r: Request)
    requires Unreadable(r) && GivenCursor(ParamsOf(cursor, r)).None?
    requires forall i :: 0 <= i < |requests| ==> requests[i] == r
    ensures var pages := Walk(cursor, requests);
      |pages| == |requests| && forall k :: 0 <= k < |pages| ==> pages[k] == PageFor("", r)
    decreases |requests|
  {
    if requests != [] {
      SamePage(cursor, "", r);
      FirstPageRepeats(PageFor("", r).cursor, requests[1..], r);
    }
  }

  // ----- The walk -----

  ghost predicate AllWellAnswered(requests: seq<Request>) {
    forall r :: r in requests ==> WellAnswered(r)
  }

  /** The pages until one is empty. */
  ghost function Walk(cursor: string, requests: seq<Request>): seq<Page>
    requires AllWellAnswered(requests)
    decreases |requests|
  {
    if requests == [] then []
    else
      var page := PageFor(cursor, requests[0]);
      [page] + if page.messages == [] then [] else Walk(page.cursor, requests[1..])
  }

  /** Every page of the walk that another call follows steers it. */
  ghost predicate WalkSteers(cursor: string, requests: seq<Request>)
    requires AllWellAnswered(requests)
    decreases |requests|
  {
    |requests| > 1 && PageFor(cursor, requests[0]).messages != [] ==>
      Steers(PageFor(cursor, requests[0])) && WalkSteers(PageFor(cursor, requests[0]).cursor, requests[1..])
  }

  ghost predicate AllOlder(pages: seq<Page>, millis: int) {
    forall k, m :: 0 <= k < |pages| && m in pages[k].messages ==> Millis(m.timestamp) < millis
  }

  /** All pages that follow a call lie behind the cursor it was given. */
  lemma {:induction false} WalkIsOlder(cursor: string, requests: seq<Request>, millis: int)
    requires AllWellAnswered(requests) && WalkSteers(cursor, requests)
    requires requests != [] ==>
      var used := UsedFor(cursor, requests[0]); used.Some? && used.value.lastItemTimestamp <= millis
    ensures AllOlder(Walk(cursor, requests), millis)
    decreases |requests|
  {
    if requests != [] {
      var page := PageFor(cursor, requests[0]);
      PageIsOlder(cursor, requests[0]);
      if page.messages != [] && |requests| > 1 {
        CursorDrops(cursor, requests[0], requests[1]);
        WalkIsOlder(page.cursor, requests[1..], millis);
      }
    }
  }

  /** A walk of two pages or more goes on behind its first page. */
  lemma WalkGoesOn(cursor: string, requests: seq<Request>)
    requires AllWellAnswered(requests) && WalkSteers(cursor, requests) && |Walk(cursor, requests)| > 1
    ensures |requests| > 1 && AllWellAnswered(requests[1..])
    ensures var page := PageFor(cursor, requests[0]);
      && page.messages != [] && Steers(page)
      && WalkSteers(page.cursor, requests[1..])
      && Walk(cursor, requests) == [page] + Walk(page.cursor, requests[1..])
  {
  }

  lemma FirstIsNewest(cursor: string, requests: seq<Request>, k: nat)
    requires AllWellAnswered(requests) && WalkSteers(cursor, requests)
    requires |Walk(cursor, requests)| > 1 && k < |Walk(PageFor(cursor, requests[0]).cursor, requests[1..])|
    ensures Descends(PageFor(cursor, requests[0]), Walk(PageFor(cursor, requests[0]).cursor, requests[1..])[k])
  {
    WalkGoesOn(cursor, requests);
    var page, rest := PageFor(cursor, requests[0]), requests[1..];
    CursorDrops(cursor, requests[0], rest[0]);
    WalkIsOlder(page.cursor, rest, UsedFor(page.cursor, rest[0]).value.lastItemTimestamp);
  }

  ghost predicate AllDescend(pages: seq<Page>) {
    forall j, k :: 0 <= j < k < |pages| ==> Descends(pages[j], pages[k])
  }

  lemma FirstThenRest(first: Page, rest: seq<Page>)
    requires AllDescend(rest) && forall k :: 0 <= k < |rest| ==> Descends(first, rest[k])
    ensures AllDescend([first] + rest)
  {
  }

  /** Every message of a later page is strictly older, by the millisecond, than every one of an earlier page. */
  lemma {:induction false} PagesDescend(cursor: string, requests: seq<Request>)
    requires AllWellAnswered(requests) && WalkSteers(cursor, requests)
    ensures AllDescend(Walk(cursor, requests))
    decreases |requests|
  {
    if |Walk(cursor, requests)| > 1 {
      WalkGoesOn(cursor, requests);
      var page := PageFor(cursor, requests[0]);
      var rest := Walk(page.cursor, requests[1..]);
      PagesDescend(page.cursor, requests[1..]);
      forall k | 0 <= k < |rest|
        ensures Descends(page, rest[k])
      {
        FirstIsNewest(cursor, requests, k);
      }
      FirstThenRest(page, rest);
    }
  }

  function Returned(pages: seq<Page>): seq<Message> {
    if pages == [] then [] else Returned(pages[..|pages| - 1]) + pages[|pages| - 1].messages
  }

  lemma {:induction false} ReturnedFrom(pages: seq<Page>, m: Message) returns (k: nat)
    requires m in Returned(pages)
    ensures k < |pages| && m in pages[k].messages
  {
    var last := |pages| - 1;
    if m in pages[last].messages {
      k := last;
    } else {
      k := ReturnedFrom(pages[..last], m);
    }
  }

  ghost predicate AnswersOnce(requests: seq<Request>) {
    AllWellAnswered(requests) && forall r :: r in requests ==> NoDuplicates(r.answer.messages)
  }

  lemma DescendingApart(earlier: Page, later: Page, m: Message)
    requires Descends(earlier, later) && m in later.messages
    ensures m !in earlier.messages
  {
  }

  /** Pages that descend have no message in common. */
  lemma {:induction false} DescendingIsDistinct(pages: seq<Page>)
    requires AllDescend(pages) && forall k :: 0 <= k < |pages| ==> NoDuplicates(pages[k].messages)
    ensures NoDuplicates(Returned(pages))
  {
    if pages != [] {
      var n := |pages| - 1;
      var last := pages[n].messages;
      DescendingIsDistinct(pages[..n]);
      forall i | 0 <= i < |last|
        ensures last[i] !in Returned(pages[..n])
      {
        if last[i] in Returned(pages[..n]) {
          var j := ReturnedFrom(pages[..n], last[i]);
          DescendingApart(pages[j], pages[n], last[i]);
        }
      }
    }
  }

  /** No message is returned twice, whatever the anchors, the counts and the phone's cursors. */
  lemma NothingTwice(cursor: string, requests: seq<Request>)
    requires AnswersOnce(requests) && WalkSteers(cursor, requests)
    ensures NoDuplicates(Returned(Walk(cursor, requests)))
  {
    PagesDescend(cursor, requests);
    forall k | 0 <= k < |Walk(cursor, requests)|
      ensures NoDuplicates(Walk(cursor, requests)[k].messages)
    {
      PageHasNothingTwice(cursor, requests, k);
    }
    DescendingIsDistinct(Walk(cursor, requests));
  }

  lemma {:induction false} PageHasNothingTwice(cursor: string, requests: seq<Request>, k: nat)
    requires AnswersOnce(requests)
    requires k < |Walk(cursor, requests)|
    ensures NoDuplicates(Walk(cursor, requests)[k].messages)
    decreases |requests|
  {
    if k == 0 {
      PageIsOlder(cursor, requests[0]);
    } else {
      PageHasNothingTwice(PageFor(cursor, requests[0]).cursor, requests[1..], k - 1);
    }
  }

  // ----- The end of the walk -----

  /** The messages of the history that are older than the time. */
  function OlderThan(history: seq<Message>, millis: int): nat {
    |Filter(history, (m: Message) => Millis(m.timestamp) < millis)|
  }

  lemma {:induction false} FewerOlder(history: seq<Message>, millis: int, millis': int)
    requires millis <= millis'
    ensures OlderThan(history, millis) <= OlderThan(history, millis')
    ensures (exists m :: m in history && millis <= Millis(m.timestamp) < millis') ==>
      OlderThan(history, millis) < OlderThan(history, millis')
  {
    if history != [] {
      FewerOlder(history[1..], millis, millis');
      assert history == [history[0]] + history[1..];
    }
  }

  ghost predicate AnswersFrom(requests: seq<Request>, history: seq<Message>) {
    AllWellAnswered(requests) && forall r, m :: r in requests && m in r.answer.messages ==> m in history
  }

  /** Feeding the cursor back comes to an empty page: behind a cursor there are no more pages than messages left. */
  lemma {:induction false} WalkEnds(cursor: string, requests: seq<Request>, history: seq<Message>, millis: int)
    requires AnswersFrom(requests, history) && WalkSteers(cursor, requests)
    requires requests != [] ==>
      var used := UsedFor(cursor, requests[0]); used.Some? && used.value.lastItemTimestamp <= millis
    ensures |Walk(cursor, requests)| <= OlderThan(history, millis) + 1
    decreases |requests|
  {
    if |requests| > 1 {
      var page, next := PageFor(cursor, requests[0]), requests[1];
      if page.messages != [] {
        PageIsOlder(cursor, requests[0]);
        CursorDrops(cursor, requests[0], next);
        var lower := UsedFor(page.cursor, next).value.lastItemTimestamp;
        assert page.messages[0] in page.messages;
        FewerOlder(history, lower, millis);
        WalkEnds(page.cursor, requests[1..], history, lower);
      }
    }
  }

  // ----- What is returned -----

  /** A phone that continues behind the message the cursor names; p messages were listed before. */
  function AnswerAt(history: seq<Message>, count: nat, p: nat): Answer
    requires p <= |history|
  {
    Answer(history[p..Min(p + count, |history|)], None)
  }

  /** The cursor carries the time of the message before position p. */
  predicate Names(cursor: string, history: seq<Message>, p: nat)
    requires p <= |history|
  {
    var given := GivenCursor(Params(cursor, None, false, 0));
    if p == 0 then given.None? else given.Some? && given.value.lastItemTimestamp == Millis(history[p - 1].timestamp)
  }

  /** The message's printed cursor parses with the message's time. */
  predicate PrintsTime(m: Message) {
    var given := GivenCursor(Params(MakePaginationCursor(Some(CursorOf(m))), None, false, 0));
    given.Some? && given.value.lastItemTimestamp == Millis(m.timestamp)
  }

  /** That holds of the last message of each page from position p on, except the last page. */
  predicate BoundariesPrint(history: seq<Message>, count: nat, p: nat)
    requires p <= |history| && count > 0
    decreases |history| - p
  {
    p == |history| ||
    var q := Min(p + count, |history|);
    q == |history| || (PrintsTime(history[q - 1]) && BoundariesPrint(history, count, q))
  }

  lemma OrdinaryPrintsTime(m: Message)
    requires IsOrdinary(m)
    ensures PrintsTime(m)
  {
    PrintedParses(m);
  }

  predicate Everybody(m: Message) {
    true
  }

  function RequestAt(history: seq<Message>, count: nat, p: nat): Request
    requires p <= |history|
  {
    Request(count, None, Everybody, AnswerAt(history, count, p))
  }

  lemma RequestIsWellAnswered(history: seq<Message>, count: nat, p: nat)
    requires NewestFirst(history) && p <= |history|
    ensures WellAnswered(RequestAt(history, count, p))
  {
  }

  ghost function PageAt(history: seq<Message>, count: nat, p: nat, cursor: string): Page
    requires NewestFirst(history) && p <= |history|
  {
    RequestIsWellAnswered(history, count, p);
    PageFor(cursor, RequestAt(history, count, p))
  }

  /** How many messages the walk returns from position p on. */
  ghost function ReturnedFromPosition(history: seq<Message>, count: nat, p: nat, cursor: string): nat
    requires NewestFirst(history) && p <= |history| && count > 0
    decreases |history| - p
  {
    var page := PageAt(history, count, p, cursor);
    if page.messages == [] || p == |history| then 0
    else |page.messages| + ReturnedFromPosition(history, count, Min(p + count, |history|), page.cursor)
  }

  /** Messages of one millisecond stand on both sides of a page boundary at p or later. */
  predicate SplitsMillisecond(history: seq<Message>, count: nat, p: nat)
    requires p <= |history| && count > 0
    decreases |history| - p
  {
    p < |history| &&
    ((p > 0 && Millis(history[p].timestamp) == Millis(history[p - 1].timestamp))
     || SplitsMillisecond(history, count, Min(p + count, |history|)))
  }

  /** A message without an id is taken for the anchor message that is not there. */
  predicate HasBlankID(history: seq<Message>, p: nat, q: nat)
    requires p <= q <= |history|
  {
    exists i :: p <= i < q && history[i].id == ""
  }

  /** The page at p keeps what is older, by the millisecond, than the message before p. */
  predicate BehindBoundary(history: seq<Message>, p: nat, m: Message)
    requires p <= |history|
  {
    p == 0 || Millis(m.timestamp) < Millis(history[p - 1].timestamp)
  }

  lemma SkippedAt(history: seq<Message>, count: nat, p: nat, cursor: string, m: Message)
    requires NewestFirst(history) && p < |history| && Names(cursor, history, p)
    ensures Skipped(ParamsOf(cursor, RequestAt(history, count, p)), m) <==> !BehindBoundary(history, p, m) || m.id == ""
  {
  }

  lemma AnswerIs(history: seq<Message>, count: nat, p: nat, q: nat, m: Message)
    requires p <= |history| && q == Min(p + count, |history|)
    ensures m in Reversed(AnswerAt(history, count, p).messages) <==> exists i :: p <= i < q && history[i] == m
  {
    var answer := AnswerAt(history, count, p).messages;
    ReversedHas(answer, m);
    if i :| p <= i < q && history[i] == m {
      assert answer[i - p] == m;
    }
    if i :| 0 <= i < |answer| && answer[i] == m {
      assert history[p + i] == m;
    }
  }

  lemma KeepsAt(history: seq<Message>, count: nat, p: nat, cursor: string, m: Message)
    requires NewestFirst(history) && p < |history| && Names(cursor, history, p)
    ensures Keeper(ParamsOf(cursor, RequestAt(history, count, p)), Everybody)(m) <==>
      BehindBoundary(history, p, m) && m.id != ""
  {
    SkippedAt(history, count, p, cursor, m);
    assert Everybody(m);
  }

  lemma KeptAt(history: seq<Message>, count: nat, p: nat, q: nat, cursor: string)
    requires NewestFirst(history) && p < |history| && count > 0 && Names(cursor, history, p)
    requires q == Min(p + count, |history|)
    ensures var kept := KeptOf(
        ParamsOf(cursor, RequestAt(history, count, p)), Everybody, Reversed(AnswerAt(history, count, p).messages));
      |kept| <= q - p && (|kept| == q - p <==> BehindBoundary(history, p, history[p]) && !HasBlankID(history, p, q))
  {
    var reversed := Reversed(AnswerAt(history, count, p).messages);
    var keep := Keeper(ParamsOf(cursor, RequestAt(history, count, p)), Everybody);
    FilterIs(reversed, keep);
    if forall m :: m in reversed ==> keep(m) {
      forall i | p <= i < q
        ensures BehindBoundary(history, p, history[i]) && history[i].id != ""
      {
        AnswerIs(history, count, p, q, history[i]);
        KeepsAt(history, count, p, cursor, history[i]);
      }
    }
    if BehindBoundary(history, p, history[p]) && !HasBlankID(history, p, q) {
      forall m | m in reversed
        ensures keep(m)
      {
        AnswerIs(history, count, p, q, m);
        KeepsAt(history, count, p, cursor, m);
      }
    }
  }

  lemma PageMessages(cursor: string, r: Request)
    requires WellAnswered(r)
    ensures PageFor(cursor, r).messages == KeptOf(ParamsOf(cursor, r), r.hasIntent, Reversed(r.answer.messages))
  {
  }

  /** The page at p holds the whole answer exactly when its newest message is behind the boundary and all have ids. */
  lemma PageSize(history: seq<Message>, count: nat, p: nat, q: nat, cursor: string)
    requires NewestFirst(history) && p < |history| && count > 0 && Names(cursor, history, p)
    requires q == Min(p + count, |history|)
    ensures var n := |PageAt(history, count, p, cursor).messages|;
      n <= q - p && (n == q - p <==> BehindBoundary(history, p, history[p]) && !HasBlankID(history, p, q))
  {
    RequestIsWellAnswered(history, count, p);
    KeptAt(history, count, p, q, cursor);
    PageMessages(cursor, RequestAt(history, count, p));
  }

  lemma PrintNames(history: seq<Message>, q: nat, cursor: string)
    requires 0 < q <= |history| && PrintsTime(history[q - 1])
    requires cursor == MakePaginationCursor(Some(CursorOf(history[q - 1])))
    ensures Names(cursor, history, q)
  {
  }

  /** Behind a page that is not empty the walk goes on where the page ended. */
  lemma CursorContinues(history: seq<Message>, count: nat, p: nat, q: nat, cursor: string)
    requires NewestFirst(history) && p < |history| && count > 0
    requires q == Min(p + count, |history|) && PrintsTime(history[q - 1])
    requires PageAt(history, count, p, cursor).messages != []
    ensures Names(PageAt(history, count, p, cursor).cursor, history, q)
  {
    PageCursor(history, count, p, q, cursor);
    PrintNames(history, q, PageAt(history, count, p, cursor).cursor);
  }

  lemma PageCursor(history: seq<Message>, count: nat, p: nat, q: nat, cursor: string)
    requires NewestFirst(history) && p < |history| && count > 0 && q == Min(p + count, |history|)
    requires PageAt(history, count, p, cursor).messages != []
    ensures PageAt(history, count, p, cursor).cursor == MakePaginationCursor(Some(CursorOf(history[q - 1])))
  {
    RequestIsWellAnswered(history, count, p);
    CursorOfPage(cursor, RequestAt(history, count, p));
    assert OldestOf(AnswerAt(history, count, p)) == history[q - 1];
  }

  lemma BoundaryAt(history: seq<Message>, count: nat, p: nat, q: nat)
    requires p < |history| && count > 0 && q == Min(p + count, |history|) && BoundariesPrint(history, count, p)
    ensures BoundariesPrint(history, count, q) && (q < |history| ==> PrintsTime(history[q - 1]))
  {
  }

  lemma BlankIDsSplit(history: seq<Message>, p: nat, q: nat)
    requires p <= q <= |history|
    ensures HasBlankID(history, p, |history|) <==> HasBlankID(history, p, q) || HasBlankID(history, q, |history|)
  {
  }

  lemma ReturnedStep(history: seq<Message>, count: nat, p: nat, q: nat, cursor: string) returns (n: nat, next: string)
    requires NewestFirst(history) && p < |history| && count > 0 && Names(cursor, history, p)
    requires q == Min(p + count, |history|) && (q < |history| ==> PrintsTime(history[q - 1]))
    ensures ReturnedFromPosition(history, count, p, cursor)
      == if n == 0 then 0 else n + ReturnedFromPosition(history, count, q, next)
    ensures n > 0 && q < |history| ==> Names(next, history, q)
    ensures n <= q - p && (n == q - p <==> BehindBoundary(history, p, history[p]) && !HasBlankID(history, p, q))
  {
    PageSize(history, count, p, q, cursor);
    n, next := |PageAt(history, count, p, cursor).messages|, PageAt(history, count, p, cursor).cursor;
    if n > 0 && q < |history| {
      CursorContinues(history, count, p, q, cursor);
    }
  }

  /**
   * The walk returns the whole history exactly when no page boundary splits the messages of one
   * millisecond and every message has an id.
   */
  lemma {:induction false} WalkIsComplete(history: seq<Message>, count: nat, p: nat, cursor: string)
    requires NewestFirst(history) && p <= |history| && count > 0
    requires (p < |history| ==> Names(cursor, history, p)) && BoundariesPrint(history, count, p)
    ensures var returned := ReturnedFromPosition(history, count, p, cursor);
      && returned <= |history| - p
      && (returned == |history| - p <==> !SplitsMillisecond(history, count, p) && !HasBlankID(history, p, |history|))
    decreases |history| - p
  {
    if p < |history| {
      var q := Min(p + count, |history|);
      BoundaryAt(history, count, p, q);
      var n, next := ReturnedStep(history, count, p, q, cursor);
      BlankIDsSplit(history, p, q);
      if n > 0 {
        WalkIsComplete(history, count, q, next);
      }
      if p > 0 {
        assert history[p - 1].timestamp >= history[p].timestamp;
      }
    }
  }

  // ----- Where the promises fail -----

  /** A phone that lists one message, whose id is no number. */
  function LetterRequest(): Request {
    Request(1, None, Everybody, Answer([Message("m1", 5000)], None))
  }

  lemma LetterPage()
    ensures WellAnswered(LetterRequest()) && PageFor("", LetterRequest()).messages == [Message("m1", 5000)]
  {
    var m, r := Message("m1", 5000), LetterRequest();
    assert Reversed([m]) == [m];
    PageMessages("", r);
    assert Keeper(ParamsOf("", r), r.hasIntent)(m) by {
      assert Everybody(m) && !Skipped(ParamsOf("", r), m);
    }
    assert [m][1..] == [];
  }

  lemma LetterIsUnreadable()
    ensures Unreadable(LetterRequest())
  {
    LetterPage();
    CursorOfPage("", LetterRequest());
    LetterIsNoNumber("m1", MakePaginationCursor(Some(CursorOf(Message("m1", 5000)))));
  }

  /** When every call lists that message, every page returns it. */
  lemma LetterRepeats(requests: seq<Request>)
    requires forall i :: 0 <= i < |requests| ==> requests[i] == LetterRequest()
    ensures AllWellAnswered(requests) && |Walk("", requests)| == |requests|
    ensures forall k :: 0 <= k < |requests| ==> Walk("", requests)[k].messages == [Message("m1", 5000)]
  {
    LetterPage();
    LetterIsUnreadable();
    FirstPageRepeats("", requests, LetterRequest());
  }

  /** Two messages of one millisecond, fetched one at a time: not both are returned. */
  lemma SplitMillisecondLoses(history: seq<Message>)
    requires history == [Message("2", 1000), Message("1", 1000)]
    ensures NewestFirst(history) && ReturnedFromPosition(history, 1, 0, "") < 2
  {
    TwoPrint(history);
    TwoSplit(history);
    WalkIsComplete(history, 1, 0, "");
  }

  lemma TwoPrint(history: seq<Message>)
    requires history == [Message("2", 1000), Message("1", 1000)]
    ensures PrintsTime(history[0]) && PrintsTime(history[1])
  {
    assert "2" == FormatInt(2) && "1" == FormatInt(1);
    OrdinaryPrintsTime(history[0]);
    OrdinaryPrintsTime(history[1]);
  }

  lemma TwoSplit(history: seq<Message>)
    requires |history| == 2 && history[0].timestamp == history[1].timestamp
    requires PrintsTime(history[0]) && PrintsTime(history[1])
    ensures BoundariesPrint(history, 1, 0) && SplitsMillisecond(history, 1, 0)
  {
    assert BoundariesPrint(history, 1, 1);
    assert SplitsMillisecond(history, 1, 1);
  }
}

/**
 * What the connector remembers of each conversation between updates (syncConversationMeta in
 * pkg/connector/chatsync.go). Times are microseconds of Unix time.
 */
module ConversationSync {
  import opened Basics

  const ONE_MINUTE := 60_000_000

  datatype Status = Active | Archived | KeepArchived | SpamFolder | BlockedFolder | Deleted | UnknownStatus

  datatype Conversation = Conversation(unread: bool, latestMessageID: string, lastMessageTimestamp: int, status: Status)

  /** None stands for Go's zero time. */
  datatype Meta = Meta(unread: bool, readUpTo: string, readUpToTS: Option<int>, markedSpamAt: Option<int>)

  const NEW_META := Meta(false, "", None, None)

  predicate IsSpam(v: Conversation) {
    v.status.SpamFolder? || v.status.BlockedFolder?
  }

  function NextMeta(meta: Meta, v: Conversation, now: int): Meta {
    var read :=
      if !v.unread then meta.(unread := false, readUpTo := v.latestMessageID, readUpToTS := Some(v.lastMessageTimestamp))
      else if meta.readUpTo == v.latestMessageID then meta.(unread := true, readUpTo := "", readUpToTS := None)
      else meta.(unread := true);
    if IsSpam(v) && meta.markedSpamAt.None? then read.(markedSpamAt := Some(now)) else read
  }

  predicate IsSuspicious(meta: Meta, v: Conversation, now: int) {
    !IsSpam(v) && !v.status.Deleted? && meta.markedSpamAt.Some? && now - meta.markedSpamAt.value < ONE_MINUTE
  }

  class GMClient {
    var conversationMeta: map<string, Meta>

    function MetaOf(id: string): Meta
      reads this
    {
      if id in conversationMeta then conversationMeta[id] else NEW_META
    }

    /** The part under conversationMetaLock; other conversations are left alone. */
    method SyncConversationMeta(id: string, v: Conversation, now: int) returns (meta: Meta, suspiciousUnmarkedSpam: bool)
      modifies this
      ensures meta == NextMeta(old(MetaOf(id)), v, now)
      ensures conversationMeta == old(conversationMeta)[id := meta]
      ensures suspiciousUnmarkedSpam == IsSuspicious(old(MetaOf(id)), v, now)
    {
      meta := if id in conversationMeta then conversationMeta[id] else NEW_META;
      suspiciousUnmarkedSpam := false;
      meta := meta.(unread := v.unread);
      if !v.unread {
        meta := meta.(readUpTo := v.latestMessageID, readUpToTS := Some(v.lastMessageTimestamp));
      } else if meta.readUpTo == v.latestMessageID {
        meta := meta.(readUpTo := "", readUpToTS := None);
      }
      match v.status {
        case SpamFolder | BlockedFolder =>
          if meta.markedSpamAt.None? {
            meta := meta.(markedSpamAt := Some(now));
          }
        case Deleted =>
        case _ =>
          suspiciousUnmarkedSpam := meta.markedSpamAt.Some? && now - meta.markedSpamAt.value < ONE_MINUTE;
      }
      conversationMeta := conversationMeta[id := meta];
    }
  }

  // ----- Runs -----

  datatype Update = Update(v: Conversation, now: int)

  function After(updates: seq<Update>): Meta {
    if updates == [] then NEW_META
    else
      var last := updates[|updates| - 1];
      NextMeta(After(updates[..|updates| - 1]), last.v, last.now)
  }

  predicate FirstSpam(updates: seq<Update>, i: nat) {
    i < |updates| && IsSpam(updates[i].v) && forall j :: 0 <= j < i ==> !IsSpam(updates[j].v)
  }

  /** Only the first update that puts the conversation into spam counts, however often it moves. */
  lemma {:induction false} MarkedAtFirstSpam(updates: seq<Update>)
    ensures match After(updates).markedSpamAt
      case None => forall j :: 0 <= j < |updates| ==> !IsSpam(updates[j].v)
      case Some(t) => exists i: nat :: FirstSpam(updates, i) && updates[i].now == t
  {
    if updates != [] {
      var n := |updates| - 1;
      MarkedAtFirstSpam(updates[..n]);
      if After(updates[..n]).markedSpamAt.Some? {
        var i: nat :| FirstSpam(updates[..n], i) && updates[..n][i].now == After(updates[..n]).markedSpamAt.value;
        assert FirstSpam(updates, i);
      } else if IsSpam(updates[n].v) {
        assert FirstSpam(updates, n);
      }
    }
  }

  /**
   * In any run an update is dropped exactly when it takes the conversation out of spam less than a
   * minute after the first update that put it there.
   */
  lemma DroppedExactly(updates: seq<Update>, u: Update)
    ensures IsSuspicious(After(updates), u.v, u.now) <==>
      && !IsSpam(u.v) && !u.v.status.Deleted?
      && exists i: nat :: FirstSpam(updates, i) && u.now - updates[i].now < 60_000_000
  {
    MarkedAtFirstSpam(updates);
    if i: nat, j: nat :| FirstSpam(updates, i) && FirstSpam(updates, j) && i != j {
      assert false;
    }
  }

  /**
   * The read mark always names the latest message of some update that was read, and an update that is
   * read moves it there.
   */
  lemma {:induction false} ReadMarkIsReal(updates: seq<Update>)
    ensures var meta := After(updates);
      && (meta.readUpTo != "" ==> exists i :: 0 <= i < |updates| && ReadTo(updates, i, meta.readUpTo))
      && (updates != [] ==> meta.unread == updates[|updates| - 1].v.unread)
      && (updates != [] && !meta.unread ==> meta.readUpTo == updates[|updates| - 1].v.latestMessageID)
      && (updates != [] && meta.unread && updates[|updates| - 1].v.latestMessageID != "" ==>
          meta.readUpTo != updates[|updates| - 1].v.latestMessageID)
  {
    if updates != [] {
      var n := |updates| - 1;
      ReadMarkIsReal(updates[..n]);
      var readUpTo := After(updates[..n]).readUpTo;
      if !updates[n].v.unread {
        assert ReadTo(updates, n, After(updates).readUpTo);
      } else if After(updates).readUpTo != "" {
        var i :| 0 <= i < n && ReadTo(updates[..n], i, readUpTo);
        assert ReadTo(updates, i, readUpTo);
      }
    }
  }

  predicate ReadTo(updates: seq<Update>, i: nat, id: string)
    requires i < |updates|
  {
    !updates[i].v.unread && updates[i].v.latestMessageID == id
  }

  /** Update i was read, and every later one is unread. */
  predicate IsLastRead(updates: seq<Update>, i: nat) {
    i < |updates| && !updates[i].v.unread && forall j :: i < j < |updates| ==> updates[j].v.unread
  }

  /** A later update names the same message as its latest, and so takes the mark away. */
  predicate IsUnmarked(updates: seq<Update>, i: nat)
    requires i < |updates|
  {
    exists j :: i < j < |updates| && updates[j].v.latestMessageID == updates[i].v.latestMessageID
  }

  /**
   * The read mark is the latest message, with its time, of the last update that was read, until an unread
   * update names that very message. Without an update that was read there is none.
   */
  lemma {:induction false} ReadMarkExactly(updates: seq<Update>, i: nat)
    ensures IsLastRead(updates, i) ==>
      var meta, v := After(updates), updates[i].v;
      if IsUnmarked(updates, i) then meta.readUpTo == "" && meta.readUpToTS == None
      else meta.readUpTo == v.latestMessageID && meta.readUpToTS == Some(v.lastMessageTimestamp)
    ensures (forall j :: 0 <= j < |updates| ==> updates[j].v.unread) ==>
      After(updates).readUpTo == "" && After(updates).readUpToTS == None
  {
    if updates != [] {
      var n := |updates| - 1;
      var before := updates[..n];
      ReadMarkExactly(before, i);
      assert forall j :: 0 <= j < n ==> before[j] == updates[j];
      if IsLastRead(updates, i) && i < n {
        assert IsLastRead(before, i);
        if IsUnmarked(before, i) {
          var j :| i < j < n && before[j].v.latestMessageID == before[i].v.latestMessageID;
          assert updates[j].v.latestMessageID == updates[i].v.latestMessageID;
        } else if IsUnmarked(updates, i) {
          assert updates[n].v.latestMessageID == updates[i].v.latestMessageID;
        }
      }
    }
  }
}

/**
 * Remote messages, their stored form, and the functions of a message's status
 * (pkg/connector/handlegmessages.go, messagestatus.go, dbmeta.go).
 */
module Messages {
  import opened Basics

  /** The numbers of gmproto.MessageStatusType that the code tells apart. */
  const OUTGOING_COMPLETE := 1
  const OUTGOING_DELIVERED := 2
  const OUTGOING_FAILED_GENERIC := 8
  const OUTGOING_FAILED_EMERGENCY_NUMBER := 9
  const OUTGOING_DISPLAYED := 11
  const OUTGOING_CANCELED := 12
  const OUTGOING_FAILED_TOO_LARGE := 13
  const OUTGOING_FAILED_RECIPIENT_LOST_RCS := 17
  const OUTGOING_FAILED_NO_RETRY_NO_FALLBACK := 18
  const OUTGOING_FAILED_RECIPIENT_DID_NOT_DECRYPT := 19
  const OUTGOING_FAILED_RECIPIENT_LOST_ENCRYPTION := 21
  const OUTGOING_FAILED_RECIPIENT_DID_NOT_DECRYPT_NO_MORE_RETRY := 22
  const INCOMING_YET_TO_MANUAL_DOWNLOAD := 101
  const INCOMING_RETRYING_MANUAL_DOWNLOAD := 102
  const INCOMING_MANUAL_DOWNLOADING := 103
  const INCOMING_RETRYING_AUTO_DOWNLOAD := 104
  const INCOMING_AUTO_DOWNLOADING := 105
  const INCOMING_DOWNLOAD_FAILED := 106
  const INCOMING_DOWNLOAD_CANCELED := 110
  const INCOMING_DOWNLOAD_FAILED_TOO_LARGE := 111
  const INCOMING_DOWNLOAD_FAILED_SIM_HAS_NO_DATA := 112

  function DownloadStatusRank(status: int): int {
    if status == INCOMING_AUTO_DOWNLOADING then 0
    else if status in {INCOMING_MANUAL_DOWNLOADING, INCOMING_RETRYING_AUTO_DOWNLOAD, INCOMING_DOWNLOAD_FAILED,
                       INCOMING_YET_TO_MANUAL_DOWNLOAD, INCOMING_RETRYING_MANUAL_DOWNLOAD,
                       INCOMING_DOWNLOAD_FAILED_SIM_HAS_NO_DATA, INCOMING_DOWNLOAD_FAILED_TOO_LARGE,
                       INCOMING_DOWNLOAD_CANCELED} then 1
    else 100
  }

  function DownloadPendingStatusMessage(status: int): string {
    if status == INCOMING_YET_TO_MANUAL_DOWNLOAD then
      "Attachment message (auto-download is disabled, use Messages on Android to download)"
    else if status in {INCOMING_MANUAL_DOWNLOADING, INCOMING_AUTO_DOWNLOADING, INCOMING_RETRYING_MANUAL_DOWNLOAD,
                       INCOMING_RETRYING_AUTO_DOWNLOAD} then "Downloading message..."
    else if status == INCOMING_DOWNLOAD_FAILED then "Message download failed"
    else if status == INCOMING_DOWNLOAD_FAILED_TOO_LARGE then "Message download failed (too large)"
    else if status == INCOMING_DOWNLOAD_FAILED_SIM_HAS_NO_DATA then "Message download failed (no mobile data connection)"
    else if status == INCOMING_DOWNLOAD_CANCELED then "Message download canceled"
    else ""
  }

  predicate IsSuccessfullySentStatus(status: int) {
    status in {OUTGOING_DELIVERED, OUTGOING_COMPLETE, OUTGOING_DISPLAYED}
  }

  /** getFailMessage(status) != "". */
  predicate IsFailStatus(status: int) {
    status in {OUTGOING_FAILED_TOO_LARGE, OUTGOING_FAILED_RECIPIENT_LOST_RCS, OUTGOING_FAILED_RECIPIENT_LOST_ENCRYPTION,
               OUTGOING_FAILED_RECIPIENT_DID_NOT_DECRYPT, OUTGOING_FAILED_RECIPIENT_DID_NOT_DECRYPT_NO_MORE_RETRY,
               OUTGOING_FAILED_GENERIC, OUTGOING_FAILED_NO_RETRY_NO_FALLBACK, OUTGOING_FAILED_EMERGENCY_NUMBER,
               OUTGOING_CANCELED}
  }

  /** One entry of MessageInfo. */
  datatype Part =
    | Text(actionID: string, content: string)
    | Media(actionID: string, mediaID: string, thumbnailID: string)
    | OtherPart(actionID: string)

  datatype Message = Message(subject: string, parts: seq<Part>, status: int, timestamp: int)

  datatype Metadata = Metadata(
    status: int, mediaStatus: string, partCount: nat,
    textHash: string, mediaPartID: string, mediaID: string, mediaPending: bool,
    isOutgoing: bool, mssSent: bool, mssFailSent: bool, mssDeliverySent: bool, readReceiptSent: bool)

  const NO_METADATA := Metadata(0, "", 0, "", "", "", false, false, false, false, false, false)

  /** A part of a Matrix message: about to be sent, or a row of the database. */
  datatype MessagePart = MessagePart(id: string, meta: Metadata)

  // ----- Text -----

  function TrimNewline(s: string): string {
    if |s| > 0 && s[0] == '\n' then s[1..] else s
  }

  /** The texts of the first n parts, each behind a newline. */
  function Lines(parts: seq<Part>, n: nat): string
    requires n <= |parts|
  {
    if n == 0 then ""
    else match parts[n - 1]
      case Text(_, content) => Lines(parts, n - 1) + "\n" + content
      case _ => Lines(parts, n - 1)
  }

  function TextBody(m: Message): string {
    TrimNewline((if m.subject == "" then "" else "\n**" + m.subject + "**") + Lines(m.parts, |m.parts|))
  }

  /** What is hashed: the subject and the texts, each closed by a zero byte. */
  function HashInput(m: Message, n: nat): string
    requires n <= |m.parts|
  {
    if n == 0 then m.subject + "\0"
    else match m.parts[n - 1]
      case Text(_, content) => HashInput(m, n - 1) + content + "\0"
      case _ => HashInput(m, n - 1)
  }

  /** sha stands for the hex form of SHA-256. */
  function TextHash(sha: string -> string, m: Message): string {
    if TextBody(m) == "" then "" else sha(HashInput(m, |m.parts|))
  }

  function TextPart(sha: string -> string, m: Message): Option<MessagePart> {
    var pending := DownloadPendingStatusMessage(m.status);
    if TextBody(m) == "" && pending == "" then None
    else Some(MessagePart("", NO_METADATA.(status := m.status, textHash := TextHash(sha, m),
                                           mediaStatus := pending, partCount := |m.parts|)))
  }

  method GetTextPart(sha: string -> string, m: Message) returns (part: Option<MessagePart>, textHash: string)
    ensures part == TextPart(sha, m) && textHash == TextHash(sha, m)
  {
    var hashed := m.subject + "\0";
    var body := if m.subject == "" then "" else "\n**" + m.subject + "**";
    ghost var title := body;
    assert title + "" == title;
    for i := 0 to |m.parts|
      invariant hashed == HashInput(m, i)
      invariant body == title + Lines(m.parts, i)
    {
      match m.parts[i]
      case Text(_, content) =>
        hashed := hashed + content + "\0";
        assert title + (Lines(m.parts, i) + "\n" + content) == title + Lines(m.parts, i) + "\n" + content;
        body := body + "\n" + content;
      case _ =>
    }
    body := TrimNewline(body);
    textHash := if |body| > 0 then sha(hashed) else "";
    var downloadStatus := DownloadPendingStatusMessage(m.status);
    if |body| == 0 && |downloadStatus| == 0 {
      return None, textHash;
    }
    part := Some(MessagePart("", NO_METADATA.(status := m.status, textHash := textHash,
                                              mediaStatus := downloadStatus, partCount := |m.parts|)));
  }

  // ----- What the text and its hash tell apart -----

  /** The texts of the first n parts, in order. */
  function Texts(parts: seq<Part>, n: nat): seq<string>
    requires n <= |parts|
  {
    if n == 0 then []
    else Texts(parts, n - 1) + if parts[n - 1].Text? then [parts[n - 1].content] else []
  }

  function TextsOf(m: Message): seq<string> {
    Texts(m.parts, |m.parts|)
  }

  /** Lines with a line break between each and the next. */
  function Joined(lines: seq<string>): string {
    if lines == [] then ""
    else if |lines| == 1 then lines[0]
    else lines[0] + "\n" + Joined(lines[1..])
  }

  function Led(lines: seq<string>): string {
    if lines == [] then "" else "\n" + lines[0] + Led(lines[1..])
  }

  lemma {:induction false} LedAppends(lines: seq<string>, line: string)
    ensures Led(lines + [line]) == Led(lines) + "\n" + line
  {
    if lines == [] {
      assert [] + [line] == [line];
    } else {
      LedAppends(lines[1..], line);
      assert (lines + [line])[0] == lines[0] && (lines + [line])[1..] == lines[1..] + [line];
    }
  }

  lemma {:induction false} LinesAreLed(parts: seq<Part>, n: nat)
    requires n <= |parts|
    ensures Lines(parts, n) == Led(Texts(parts, n))
  {
    if n > 0 {
      LinesAreLed(parts, n - 1);
      match parts[n - 1]
      case Text(_, content) => LedAppends(Texts(parts, n - 1), content);
      case _ => assert Texts(parts, n - 1) + [] == Texts(parts, n - 1);
    }
  }

  lemma {:induction false} LedIsJoined(lines: seq<string>)
    ensures lines != [] ==> Led(lines) == "\n" + Joined(lines)
  {
    if |lines| == 1 {
      assert Led(lines[1..]) == "";
    } else if |lines| > 1 {
      LedIsJoined(lines[1..]);
      assert "\n" + lines[0] + ("\n" + Joined(lines[1..])) == "\n" + (lines[0] + "\n" + Joined(lines[1..]));
    }
  }

  /** The body is the title in bold, if there is one, and the texts, a line break between each and the next. */
  lemma BodyIsJoined(m: Message)
    ensures TextBody(m) == Joined((if m.subject == "" then [] else ["**" + m.subject + "**"]) + TextsOf(m))
  {
    var texts := TextsOf(m);
    LinesAreLed(m.parts, |m.parts|);
    if m.subject == "" {
      assert [] + texts == texts;
      assert "" + Led(texts) == Led(texts);
      LedIsJoined(texts);
    } else {
      var title := "**" + m.subject + "**";
      assert "\n**" + m.subject + "**" + Led(texts) == "\n" + title + Led(texts);
      assert ([title] + texts)[0] == title && ([title] + texts)[1..] == texts;
      LedIsJoined([title] + texts);
    }
  }

  /** There is nothing to show: no title, and no text but possibly a single empty one. */
  predicate IsBlank(m: Message) {
    m.subject == "" && (TextsOf(m) == [] || TextsOf(m) == [""])
  }

  lemma BodyIsBlank(m: Message)
    ensures TextBody(m) == "" <==> IsBlank(m)
  {
    BodyIsJoined(m);
    var texts := TextsOf(m);
    if m.subject == "" {
      assert [] + texts == texts;
    } else {
      var title := "**" + m.subject + "**";
      assert ([title] + texts)[0] == title;
    }
  }

  /** Fields, each closed by a zero byte. */
  function Closed(fields: seq<string>): string {
    if fields == [] then "" else fields[0] + "\0" + Closed(fields[1..])
  }

  lemma {:induction false} ClosedAppends(fields: seq<string>, field: string)
    ensures Closed(fields + [field]) == Closed(fields) + field + "\0"
  {
    if fields == [] {
      assert [] + [field] == [field];
    } else {
      ClosedAppends(fields[1..], field);
      assert (fields + [field])[0] == fields[0] && (fields + [field])[1..] == fields[1..] + [field];
    }
  }

  lemma {:induction false} HashInputIsClosed(m: Message, n: nat)
    requires n <= |m.parts|
    ensures HashInput(m, n) == Closed([m.subject] + Texts(m.parts, n))
  {
    if n == 0 {
      assert [m.subject] + [] == [m.subject];
      assert [m.subject][1..] == [];
    } else {
      HashInputIsClosed(m, n - 1);
      var before := [m.subject] + Texts(m.parts, n - 1);
      match m.parts[n - 1]
      case Text(_, content) =>
        assert [m.subject] + (Texts(m.parts, n - 1) + [content]) == before + [content];
        ClosedAppends(before, content);
      case _ => assert Texts(m.parts, n - 1) + [] == Texts(m.parts, n - 1);
    }
  }

  predicate HasNoZero(s: string) {
    forall i :: 0 <= i < |s| ==> s[i] != '\0'
  }

  lemma FirstFieldTold(a: string, x: string, b: string, y: string)
    requires HasNoZero(a) && HasNoZero(b) && a + "\0" + x == b + "\0" + y
    ensures a == b && x == y
  {
    var s, t := a + "\0" + x, b + "\0" + y;
    assert s[|a|] == '\0' && t[|b|] == '\0';
    assert a == s[..|a|] && b == t[..|b|] && x == s[|a| + 1..] && y == t[|b| + 1..];
  }

  lemma {:induction false} ClosedTells(fields: seq<string>, others: seq<string>)
    requires forall f :: f in fields || f in others ==> HasNoZero(f)
    requires Closed(fields) == Closed(others)
    ensures fields == others
  {
    if fields != [] && others != [] {
      assert fields[0] in fields && others[0] in others;
      FirstFieldTold(fields[0], Closed(fields[1..]), others[0], Closed(others[1..]));
      ClosedTells(fields[1..], others[1..]);
    }
  }

  predicate HasNoZeros(m: Message) {
    HasNoZero(m.subject) && forall t :: t in TextsOf(m) ==> HasNoZero(t)
  }

  /** Of messages without zero bytes, those with one hash input have one subject and the same texts in the same order. */
  lemma HashInputTells(m: Message, n: Message)
    requires HasNoZeros(m) && HasNoZeros(n)
    ensures HashInput(m, |m.parts|) == HashInput(n, |n.parts|) <==> m.subject == n.subject && TextsOf(m) == TextsOf(n)
  {
    var fields, others := [m.subject] + TextsOf(m), [n.subject] + TextsOf(n);
    HashInputIsClosed(m, |m.parts|);
    HashInputIsClosed(n, |n.parts|);
    if Closed(fields) == Closed(others) {
      ClosedTells(fields, others);
      assert fields[0] == m.subject && others[0] == n.subject;
      assert fields[1..] == TextsOf(m) && others[1..] == TextsOf(n);
    }
  }

  /** A text that holds a zero byte can hash like two texts. */
  lemma ZeroBytesCollide(m: Message, n: Message)
    requires m == Message("", [Text("", "a\0b")], OUTGOING_COMPLETE, 0)
    requires n == Message("", [Text("", "a"), Text("", "b")], OUTGOING_COMPLETE, 0)
    ensures HashInput(m, |m.parts|) == HashInput(n, |n.parts|) && TextsOf(m) != TextsOf(n)
  {
    assert HashInput(m, 0) == "" + "\0" == HashInput(n, 0);
    assert HashInput(m, 1) == HashInput(m, 0) + "a\0b" + "\0";
    assert HashInput(n, 1) == HashInput(n, 0) + "a" + "\0";
    assert HashInput(n, 2) == HashInput(n, 1) + "b" + "\0";
    assert Texts(m.parts, 0) == [] && Texts(n.parts, 0) == [];
    assert |TextsOf(m)| == 1 && |TextsOf(n)| == |Texts(n.parts, 1)| + 1 == 2;
  }

  /** sha gives the two messages' hash inputs hashes that are not empty, and different ones if the inputs differ. */
  predicate HashesTell(sha: string -> string, m: Message, n: Message) {
    var a, b := HashInput(m, |m.parts|), HashInput(n, |n.parts|);
    sha(a) != "" && sha(b) != "" && (sha(a) == sha(b) ==> a == b)
  }

  /** The hashes differ exactly when title or texts differ, unless there is nothing to show on either side. */
  lemma TextHashTells(sha: string -> string, m: Message, n: Message)
    requires HasNoZeros(m) && HasNoZeros(n) && HashesTell(sha, m, n)
    ensures TextHash(sha, m) != TextHash(sha, n) <==>
      !(IsBlank(m) && IsBlank(n)) && (m.subject != n.subject || TextsOf(m) != TextsOf(n))
  {
    BodyIsBlank(m);
    BodyIsBlank(n);
    HashInputTells(m, n);
  }

  /** A status has a text for a pending download exactly if it ranks below the finished ones. */
  lemma PendingIsRanked(status: int)
    ensures DownloadPendingStatusMessage(status) != "" <==> DownloadStatusRank(status) < 100
    ensures DownloadStatusRank(status) ==
      if status == 105 then 0 else if 101 <= status <= 106 || 110 <= status <= 112 then 1 else 100
  {
  }

  /** Downloads in progress share one text, and every other stage has its own. */
  lemma StagesDiffer(status: int, other: int)
    requires DownloadPendingStatusMessage(status) != "" && DownloadPendingStatusMessage(other) != ""
    ensures DownloadPendingStatusMessage(status) == DownloadPendingStatusMessage(other) <==>
      status == other || (102 <= status <= 105 && 102 <= other <= 105)
  {
    StageHasLength(status);
    StageHasLength(other);
  }

  lemma StageHasLength(status: int)
    ensures |DownloadPendingStatusMessage(status)| == StageLength(status)
  {
  }

  /** The length of the text for a pending download, by which the stages can be told apart. */
  function StageLength(status: int): nat {
    match status
    case 101 => 83
    case 106 => 23
    case 110 => 25
    case 111 => 35
    case 112 => 51
    case _ => if 102 <= status <= 105 then 22 else 0
  }

  // ----- Media -----

  /** The full media if the phone has sent it, else the thumbnail. */
  function BestMediaID(p: Part): string
    requires p.Media?
  {
    if p.mediaID != "" then p.mediaID else p.thumbnailID
  }

  predicate InProgress(p: Part) {
    p.Media? && p.mediaID == "" && p.thumbnailID == ""
  }

  predicate HasInProgressMedia(m: Message) {
    exists i :: 0 <= i < |m.parts| && InProgress(m.parts[i])
  }
}

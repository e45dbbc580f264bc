/**
 * readLongPoll (pkg/libgm/longpoll.go): cutting the endless array [[b1,b2,...]] that the server
 * sends into its blocks, whatever reads the network delivers it in.
 */
module LongPollReader {
  import opened Basics
  import opened Json

  /** What a block decodes to. */
  datatype Payload<M> = Data(msg: M) | Ack(count: int) | StartRead | Heartbeat | UnknownPayload | Malformed

  /** A Go byte slice that is appended to: a backing array of which the first len bytes are in use. */
  class Accumulator {
    var buffer: array<char>
    var len: nat

    ghost predicate Valid()
      reads this
    {
      len <= buffer.Length
    }

    ghost function Contents(): string
      reads this, buffer
      requires Valid()
    {
      buffer[..len]
    }

    constructor ()
      ensures Valid() && fresh(buffer) && Contents() == ""
    {
      buffer := new char[0];
      len := 0;
    }

    /** Appends in place while the capacity lasts, and into a larger copy otherwise. */
    method Append(chunk: string)
      requires Valid()
      modifies this, buffer
      ensures Valid() && (buffer == old(buffer) || fresh(buffer))
      ensures Contents() == old(Contents()) + chunk
    {
      if len + |chunk| > buffer.Length {
        var larger := new char[2 * (len + |chunk|)];
        forall i | 0 <= i < len {
          larger[i] := buffer[i];
        }
        buffer := larger;
      }
      forall i | 0 <= i < |chunk| {
        buffer[len + i] := chunk[i];
      }
      len := len + |chunk|;
    }

    /** Cuts the slice to length zero; the backing array and its bytes stay. */
    method Reset()
      requires Valid()
      modifies this`len
      ensures Valid() && Contents() == ""
    {
      len := 0;
    }
  }

  function TrimComma(s: string): string {
    if |s| > 0 && s[0] == ',' then s[1..] else s
  }

  /** The accumulator after a read; a comma is dropped where a block may begin. */
  function Grow(acc: string, chunk: string): string {
    acc + if acc == "" then TrimComma(chunk) else chunk
  }

  /** The blocks handed on when the given reads arrive on top of the unfinished bytes acc. */
  function Deframe(valid: string -> bool, packets: seq<string>, acc: string): seq<string> {
    if packets == [] then []
    else if acc == "" && packets[0] == "]]" then Deframe(valid, packets[1..], "")
    else
      var grown := Grow(acc, packets[0]);
      if valid(grown) then [grown] + Deframe(valid, packets[1..], "") else Deframe(valid, packets[1..], grown)
  }

  ghost predicate AnyData<M>(decode: string -> Payload<M>, blocks: seq<string>) {
    exists b :: b in blocks && decode(b).Data?
  }

  lemma DataAppended<M>(decode: string -> Payload<M>, blocks: seq<string>, block: string)
    ensures AnyData(decode, blocks + [block]) <==> AnyData(decode, blocks) || decode(block).Data?
  {
    assert block in blocks + [block];
    if b :| b in blocks && decode(b).Data? {
      assert b in blocks + [block];
    }
  }

  /** What one read does, with the blocks handed on before it. */
  lemma DeframeStep(valid: string -> bool, packets: seq<string>, i: nat, acc: string, blocks: seq<string>)
    requires i < |packets|
    ensures var grown := Grow(acc, packets[i]);
      blocks + Deframe(valid, packets[i..], acc) ==
        if acc == "" && packets[i] == "]]" then blocks + Deframe(valid, packets[i + 1..], "")
        else if valid(grown) then blocks + [grown] + Deframe(valid, packets[i + 1..], "")
        else blocks + Deframe(valid, packets[i + 1..], grown)
  {
    assert packets[i..][0] == packets[i] && packets[i..][1..] == packets[i + 1..];
    var grown := Grow(acc, packets[i]);
    var rest := Deframe(valid, packets[i + 1..], "");
    assert blocks + ([grown] + rest) == blocks + [grown] + rest;
  }

  /**
   * The read loop, up to the read that fails. A block shares the accumulator's backing array, which
   * the next append overwrites; it is decoded before that.
   */
  method ReadLongPoll<M>(opening: string, packets: seq<string>, decode: string -> Payload<M>)
      returns (blocks: seq<string>, receivedEvents: bool)
    ensures blocks == if opening == "[[" then Deframe(Json.Valid, packets, "") else []
    ensures receivedEvents <==> AnyData(decode, blocks)
  {
    blocks, receivedEvents := [], false;
    if opening != "[[" {
      return;
    }
    var accumulated := new Accumulator();
    var expectEOF := false;
    for i := 0 to |packets|
      invariant fresh(accumulated) && fresh(accumulated.buffer) && accumulated.Valid()
      invariant Deframe(Json.Valid, packets, "") == blocks + Deframe(Json.Valid, packets[i..], accumulated.Contents())
      invariant receivedEvents <==> AnyData(decode, blocks)
    {
      var chunk := packets[i];
      ghost var acc := accumulated.Contents();
      DeframeStep(Json.Valid, packets, i, acc, blocks);
      if accumulated.len == 0 {
        if chunk == "]]" {
          expectEOF := true;
          continue;
        }
        chunk := TrimComma(chunk);
      }
      accumulated.Append(chunk);
      if !Json.Valid(accumulated.buffer[..accumulated.len]) {
        continue;
      }
      var currentBlock, blockLen := accumulated.buffer, accumulated.len;
      accumulated.Reset();
      assert currentBlock[..blockLen] == Grow(acc, packets[i]);
      DataAppended(decode, blocks, currentBlock[..blockLen]);
      blocks := blocks + [currentBlock[..blockLen]];
      match decode(currentBlock[..blockLen])
      case Data(_) => receivedEvents := true;
      case _ =>
    }
  }

  // ----- The stream and its reads -----

  /** The bytes that follow the opening bytes when the server sends these blocks and closes. */
  function Stream(blocks: seq<string>): string {
    if blocks == [] then "]]"
    else blocks[0] + (if |blocks| == 1 then "" else ",") + Stream(blocks[1..])
  }

  function Flatten(packets: seq<string>): string {
    if packets == [] then "" else packets[0] + Flatten(packets[1..])
  }

  /** Some read ends exactly n bytes further on. */
  predicate Reaches(packets: seq<string>, n: int) {
    n == 0 || (n > 0 && packets != [] && Reaches(packets[1..], n - |packets[0]|))
  }

  /** The offset in the stream at which block k ends. */
  function EndOf(blocks: seq<string>, k: nat): nat
    requires k < |blocks|
  {
    if k == 0 then |blocks[0]| else |blocks[0]| + 1 + EndOf(blocks[1..], k - 1)
  }

  /**
   * How many of the blocks, the first of which starts n bytes further on, have their end at the end
   * of a read, up to the first that has not.
   */
  function Leading(blocks: seq<string>, packets: seq<string>, n: int): (count: nat)
    ensures count <= |blocks|
  {
    if blocks == [] || !Reaches(packets, n + |blocks[0]|) then 0
    else 1 + Leading(blocks[1..], packets, n + |blocks[0]| + 1)
  }

  lemma {:induction false} LeadingShift(blocks: seq<string>, packets: seq<string>, n: int)
    requires packets != [] && (blocks != [] ==> n + |blocks[0]| != 0)
    ensures Leading(blocks, packets, n) == Leading(blocks, packets[1..], n - |packets[0]|)
  {
    if blocks != [] && n + |blocks[0]| > 0 {
      LeadingShift(blocks[1..], packets, n + |blocks[0]| + 1);
    }
  }

  lemma {:induction false} LeadingStep(blocks: seq<string>, packets: seq<string>, n: int, k: nat)
    requires k < |blocks|
    ensures Leading(blocks, packets, n) > k <==>
      Leading(blocks, packets, n) >= k && Reaches(packets, n + EndOf(blocks, k))
  {
    if k > 0 && Reaches(packets, n + |blocks[0]|) {
      LeadingStep(blocks[1..], packets, n + |blocks[0]| + 1, k - 1);
    }
  }

  // ----- What is delivered -----

  ghost predicate AllArrays(blocks: seq<string>) {
    forall b :: b in blocks ==> IsArrayText(b)
  }

  /** Of the stream that starts with the given blocks, valid accepts the first block and no other beginning. */
  ghost predicate AcceptsFirst(valid: string -> bool, blocks: seq<string>)
    requires blocks != []
  {
    && |blocks[0]| > 0 && blocks[0][0] == '['
    && forall grown :: CompleteOnlyAsFirst(valid, blocks, grown)
  }

  ghost predicate CompleteOnlyAsFirst(valid: string -> bool, blocks: seq<string>, grown: string)
    requires blocks != []
  {
    grown <= Stream(blocks) ==> (valid(grown) <==> grown == blocks[0])
  }

  ghost predicate AcceptsEach(valid: string -> bool, blocks: seq<string>) {
    if blocks == [] then RejectsClosing(valid)
    else AcceptsFirst(valid, blocks) && AcceptsEach(valid, blocks[1..])
  }

  ghost predicate RejectsClosing(valid: string -> bool) {
    forall grown: string :: OnlyClosing(grown) ==> !valid(grown)
  }

  ghost predicate OnlyClosing(s: string) {
    forall i :: 0 <= i < |s| ==> s[i] == ']'
  }

  lemma JsonAcceptsFirst(blocks: seq<string>)
    requires blocks != [] && IsArrayText(blocks[0])
    ensures AcceptsFirst(Json.Valid, blocks)
  {
    var after := (if |blocks| == 1 then "" else ",") + Stream(blocks[1..]);
    assert Stream(blocks) == blocks[0] + after;
    forall grown: string
      ensures CompleteOnlyAsFirst(Json.Valid, blocks, grown)
    {
      if grown <= Stream(blocks) {
        ValidOnlyAtTheEnd(blocks[0], after, grown);
      }
    }
  }

  lemma {:induction false} JsonAcceptsEach(blocks: seq<string>)
    requires AllArrays(blocks)
    ensures AcceptsEach(Json.Valid, blocks)
  {
    if blocks != [] {
      JsonAcceptsFirst(blocks);
      JsonAcceptsEach(blocks[1..]);
    }
  }

  lemma {:induction false} EachRejectsClosing(valid: string -> bool, blocks: seq<string>)
    requires AcceptsEach(valid, blocks)
    ensures RejectsClosing(valid)
  {
    if blocks != [] {
      EachRejectsClosing(valid, blocks[1..]);
    }
  }

  lemma {:induction false} NothingBehindTheEnd(valid: string -> bool, packets: seq<string>, acc: string)
    requires RejectsClosing(valid)
    requires OnlyClosing(acc + Flatten(packets))
    ensures Deframe(valid, packets, acc) == []
  {
    if packets != [] {
      var all, first, tail := acc + Flatten(packets), packets[0], Flatten(packets[1..]);
      assert all == acc + first + tail;
      assert forall i :: 0 <= i < |first| ==> first[i] == all[|acc| + i];
      assert TrimComma(first) == first;
      assert forall i :: 0 <= i < |acc + first| ==> (acc + first)[i] == all[i];
      assert OnlyClosing(acc + first);
      assert forall i :: 0 <= i < |tail| ==> tail[i] == all[|acc + first| + i];
      assert "" + tail == tail;
      if acc == "" && first == "]]" {
        NothingBehindTheEnd(valid, packets[1..], "");
      } else {
        NothingBehindTheEnd(valid, packets[1..], acc + first);
      }
    }
  }

  lemma NotYetComplete(blocks: seq<string>, acc: string, tail: string)
    requires blocks != [] && acc + tail == Stream(blocks) && acc != blocks[0]
    ensures |acc| != |blocks[0]|
  {
    assert Stream(blocks)[..|blocks[0]|] == blocks[0];
    assert (acc + tail)[..|acc|] == acc;
  }

  lemma FirstByte(stream: string, acc: string, first: string, tail: string, comma: bool)
    requires stream != [] && stream[0] == '['
    requires comma ==> acc == "" && first != ""
    requires acc + (first + tail) == (if comma then "," else "") + stream
    ensures acc == "" ==> first != "]]"
    ensures var grown := Grow(acc, first);
      && grown + tail == stream && grown <= stream
      && |grown| == |acc| + |first| - (if comma then 1 else 0)
  {
    if acc == "" && first != "" {
      assert (acc + (first + tail))[0] == first[0];
    }
    if comma {
      assert first == "," + first[1..];
      assert acc + first[1..] + tail == (acc + (first + tail))[1..];
    } else {
      assert acc + first + tail == acc + (first + tail);
    }
  }

  /** With acc read of the first block, and the separating comma still to come or not. */
  lemma {:induction false} Delivers(
    valid: string -> bool, blocks: seq<string>, packets: seq<string>, acc: string, comma: bool, n: int)
    requires AcceptsEach(valid, blocks) && blocks != []
    requires comma ==> acc == ""
    requires acc + Flatten(packets) == (if comma then "," else "") + Stream(blocks)
    requires acc != blocks[0] && n == (if comma then 1 else 0) - |acc|
    ensures Deframe(valid, packets, acc) == blocks[..Leading(blocks, packets, n)]
    decreases |packets|, 1
  {
    if !comma {
      assert Stream(blocks) == "" + Stream(blocks);
      NotYetComplete(blocks, acc, Flatten(packets));
    }
    if packets == [] {
    } else if comma && packets[0] == "" {
      LeadingShift(blocks, packets, n);
      EmptyRead(valid, blocks, packets);
      Delivers(valid, blocks, packets[1..], "", true, n - |packets[0]|);
    } else {
      LeadingShift(blocks, packets, n);
      DeliversByte(valid, blocks, packets, acc, comma, n);
    }
  }

  lemma EmptyRead(valid: string -> bool, blocks: seq<string>, packets: seq<string>)
    requires AcceptsEach(valid, blocks) && packets != [] && packets[0] == ""
    ensures Deframe(valid, packets, "") == Deframe(valid, packets[1..], "")
    ensures Flatten(packets) == Flatten(packets[1..])
  {
    EachRejectsClosing(valid, blocks);
    assert OnlyClosing("") && !valid("");
    assert "" + Flatten(packets[1..]) == Flatten(packets[1..]);
    assert Grow("", "") == "";
  }

  lemma DeliversByte(valid: string -> bool, blocks: seq<string>, packets: seq<string>, acc: string, comma: bool, n: int)
    requires n == (if comma then 1 else 0) - |acc|
    requires AcceptsEach(valid, blocks) && blocks != []
    requires packets != [] && (comma ==> acc == "" && packets[0] != "")
    requires acc + Flatten(packets) == (if comma then "," else "") + Stream(blocks)
    ensures Deframe(valid, packets, acc)
      == blocks[..Leading(blocks, packets[1..], n - |packets[0]|)]
    decreases |packets|, 0
  {
    FirstByteIsBracket(valid, blocks);
    var grown := ByteStep(valid, Stream(blocks), packets, acc, comma);
    DeliversGrown(valid, blocks, packets[1..], grown, n - |packets[0]|);
  }

  lemma ByteStep(valid: string -> bool, stream: string, packets: seq<string>, acc: string, comma: bool)
      returns (grown: string)
    requires stream != [] && stream[0] == '['
    requires packets != [] && (comma ==> acc == "" && packets[0] != "")
    requires acc + Flatten(packets) == (if comma then "," else "") + stream
    ensures grown + Flatten(packets[1..]) == stream && grown <= stream
    ensures -|grown| == (if comma then 1 else 0) - |acc| - |packets[0]|
    ensures Deframe(valid, packets, acc)
      == if valid(grown) then [grown] + Deframe(valid, packets[1..], "") else Deframe(valid, packets[1..], grown)
  {
    grown := Grow(acc, packets[0]);
    FirstByte(stream, acc, packets[0], Flatten(packets[1..]), comma);
  }

  lemma DeliversGrown(valid: string -> bool, blocks: seq<string>, rest: seq<string>, grown: string, n: int)
    requires n == -|grown|
    requires AcceptsEach(valid, blocks) && blocks != []
    requires grown + Flatten(rest) == Stream(blocks) && grown <= Stream(blocks)
    ensures (if valid(grown) then [grown] + Deframe(valid, rest, "") else Deframe(valid, rest, grown))
      == blocks[..Leading(blocks, rest, n)]
    decreases |rest|, 3
  {
    assert CompleteOnlyAsFirst(valid, blocks, grown);
    if grown == blocks[0] {
      DeliversNext(valid, blocks, rest);
    } else {
      assert "" + Stream(blocks) == Stream(blocks);
      Delivers(valid, blocks, rest, grown, false, n);
    }
  }

  lemma FirstByteIsBracket(valid: string -> bool, blocks: seq<string>)
    requires AcceptsEach(valid, blocks) && blocks != []
    ensures Stream(blocks) != [] && Stream(blocks)[0] == '['
  {
  }

  lemma DeliversNext(valid: string -> bool, blocks: seq<string>, rest: seq<string>)
    requires AcceptsEach(valid, blocks) && blocks != []
    requires blocks[0] + Flatten(rest) == Stream(blocks)
    ensures [blocks[0]] + Deframe(valid, rest, "") == blocks[..1 + Leading(blocks[1..], rest, 1)]
    decreases |rest|, 2
  {
    var next, tail := blocks[1..], Flatten(rest);
    var after := (if |blocks| == 1 then "" else ",") + Stream(next);
    assert Stream(blocks) == blocks[0] + after;
    assert tail == (blocks[0] + tail)[|blocks[0]|..] == (blocks[0] + after)[|blocks[0]|..] == after;
    assert "" + tail == tail;
    if next == [] {
      NothingBehindTheEnd(valid, rest, "");
    } else {
      Delivers(valid, next, rest, "", true, 1);
    }
    assert [blocks[0]] + next[..Leading(next, rest, 1)] == blocks[..1 + Leading(next, rest, 1)];
  }

  /**
   * Whatever the reads, exactly the blocks before the first one whose end falls inside a read are
   * handed on, in order.
   */
  lemma DeliversAlignedBlocks(blocks: seq<string>, packets: seq<string>)
    requires AllArrays(blocks) && blocks != []
    requires Flatten(packets) == Stream(blocks)
    ensures var count := |Deframe(Json.Valid, packets, "")|;
      && count <= |blocks| && Deframe(Json.Valid, packets, "") == blocks[..count]
      && (forall k :: 0 <= k < count ==> Reaches(packets, EndOf(blocks, k)))
      && (count < |blocks| ==> !Reaches(packets, EndOf(blocks, count)))
  {
    DeliversLeading(blocks, packets, 0);
    LeadingIsFirstMisaligned(blocks, packets);
  }

  lemma DeliversLeading(blocks: seq<string>, packets: seq<string>, n: int)
    requires AllArrays(blocks) && blocks != [] && n == 0
    requires Flatten(packets) == Stream(blocks)
    ensures Deframe(Json.Valid, packets, "") == blocks[..Leading(blocks, packets, n)]
  {
    JsonAcceptsEach(blocks);
    assert "" + Flatten(packets) == "" + Stream(blocks);
    Delivers(Json.Valid, blocks, packets, "", false, n);
  }

  lemma LeadingIsFirstMisaligned(blocks: seq<string>, packets: seq<string>)
    ensures var count := Leading(blocks, packets, 0);
      && (forall k :: 0 <= k < count ==> Reaches(packets, EndOf(blocks, k)))
      && (count < |blocks| ==> !Reaches(packets, EndOf(blocks, count)))
  {
    var count := Leading(blocks, packets, 0);
    forall k | 0 <= k < count
      ensures Reaches(packets, EndOf(blocks, k))
    {
      LeadingStep(blocks, packets, 0, k);
    }
    if count < |blocks| {
      LeadingStep(blocks, packets, 0, count);
    }
  }

  /** All blocks arrive exactly when every block end is a read end. */
  lemma DeliversAll(blocks: seq<string>, packets: seq<string>)
    requires AllArrays(blocks) && blocks != []
    requires Flatten(packets) == Stream(blocks)
    ensures Deframe(Json.Valid, packets, "") == blocks <==>
      forall k :: 0 <= k < |blocks| ==> Reaches(packets, EndOf(blocks, k))
  {
    DeliversAlignedBlocks(blocks, packets);
  }

  /** Two blocks that arrive in one read: neither is dispatched, although all bytes are there. */
  lemma OneReadLosesBlocks() returns (blocks: seq<string>, packets: seq<string>)
    ensures AllArrays(blocks) && |blocks| == 2 && |packets| == 1 && Flatten(packets) == Stream(blocks)
    ensures Deframe(Json.Valid, packets, "") == []
  {
    blocks := ["[]", "[]"];
    var stream := Stream(blocks);
    packets := [stream];
    assert IsArrayText("[]");
    assert blocks[1..] == ["[]"] && blocks[1..][1..] == [];
    assert packets[1..] == [] && Flatten(packets) == stream + "";
    assert |stream| == 7;
    assert !Reaches(packets, EndOf(blocks, 0));
    DeliversAlignedBlocks(blocks, packets);
  }
}

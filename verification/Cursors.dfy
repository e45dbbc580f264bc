/**
 * Pagination cursors as strings (makePaginationCursor and parsePaginationCursor in
 * pkg/connector/backfill.go), with the formatted scan of Go's fmt package spelled out.
 */
module Cursors {
  import opened Basics

  datatype Cursor = Cursor(lastItemID: string, lastItemTimestamp: int)

  predicate IsInt64(i: int) {
    -0x8000_0000_0000_0000 <= i < 0x8000_0000_0000_0000
  }

  // ----- Decimal numbers -----

  predicate IsDigit(c: char) {
    '0' <= c <= '9'
  }

  function DigitValue(c: char): nat
    requires IsDigit(c)
  {
    c as nat - '0' as nat
  }

  function Digit(d: nat): (c: char)
    requires d < 10
    ensures IsDigit(c) && DigitValue(c) == d
  {
    ('0' as nat + d) as char
  }

  function Digits(n: nat): (s: string)
    ensures s != [] && forall i :: 0 <= i < |s| ==> IsDigit(s[i])
  {
    if n < 10 then [Digit(n)] else Digits(n / 10) + [Digit(n % 10)]
  }

  function FormatInt(i: int): string {
    if i < 0 then "-" + Digits(-i) else Digits(i)
  }

  function ValueOf(s: string): nat
    requires forall i :: 0 <= i < |s| ==> IsDigit(s[i])
  {
    if s == [] then 0 else 10 * ValueOf(s[..|s| - 1]) + DigitValue(s[|s| - 1])
  }

  lemma {:induction false} ValueOfDigits(n: nat)
    ensures ValueOf(Digits(n)) == n
  {
    if n < 10 {
      assert Digits(n)[..0] == [];
    } else {
      ValueOfDigits(n / 10);
      assert Digits(n)[..|Digits(n)| - 1] == Digits(n / 10);
    }
  }

  // ----- Sscanf(cursor, "%d:%d") -----

  /** fmt.isSpace. */
  predicate IsSpace(c: char) {
    var r := c as nat;
    || 0x9 <= r <= 0xd || r == 0x20 || r == 0x85 || r == 0xa0 || r == 0x1680 || 0x2000 <= r <= 0x200a
    || 0x2028 <= r <= 0x2029 || r == 0x202f || r == 0x205f || r == 0x3000
  }

  /** Spaces are skipped, but a line break is an error. */
  function SkipSpace(s: string): Option<string> {
    if s == "" then Some(s)
    else if s[0] == '\r' && |s| > 1 && s[1] == '\n' then SkipSpace(s[1..])
    else if s[0] == '\n' then None
    else if IsSpace(s[0]) then SkipSpace(s[1..])
    else Some(s)
  }

  function DigitCount(s: string): (n: nat)
    ensures n <= |s| && (forall i :: 0 <= i < n ==> IsDigit(s[i])) && (n < |s| ==> !IsDigit(s[n]))
  {
    if s == "" || !IsDigit(s[0]) then 0 else 1 + DigitCount(s[1..])
  }

  function Signed(negative: bool, value: int): int {
    if negative then -value else value
  }

  function ReadDigits(negative: bool, s: string): Option<(int, string)> {
    var n := DigitCount(s);
    var value := Signed(negative, ValueOf(s[..n]));
    if n == 0 || !IsInt64(value) then None else Some((value, s[n..]))
  }

  /** A number of 64 bits and what follows it. */
  function ReadInt(s: string): Option<(int, string)> {
    match SkipSpace(s)
    case None => None
    case Some(rest) =>
      if rest != "" && rest[0] in {'+', '-'} then ReadDigits(rest[0] == '-', rest[1..])
      else ReadDigits(false, rest)
  }

  function MakePaginationCursor(cursor: Option<Cursor>): string {
    match cursor
    case None => ""
    case Some(c) => c.lastItemID + ":" + FormatInt(c.lastItemTimestamp)
  }

  /** What follows the second number is not looked at. */
  function ParsePaginationCursor(s: string): Option<Cursor> {
    match ReadInt(s)
    case None => None
    case Some((id, rest)) =>
      if rest == "" || rest[0] != ':' then None
      else match ReadInt(rest[1..])
        case None => None
        case Some((timestamp, _)) => Some(Cursor(FormatInt(id), timestamp))
  }

  // ----- Round trips -----

  /** An id as strconv.FormatInt prints it. */
  ghost predicate IsCanonical(id: string) {
    exists i :: IsInt64(i) && id == FormatInt(i)
  }

  lemma {:induction false} DigitCountAt(digits: string, rest: string)
    requires forall i :: 0 <= i < |digits| ==> IsDigit(digits[i])
    requires rest == "" || !IsDigit(rest[0])
    ensures DigitCount(digits + rest) == |digits|
  {
    if digits == "" {
      assert digits + rest == rest;
    } else {
      assert (digits + rest)[1..] == digits[1..] + rest;
      DigitCountAt(digits[1..], rest);
    }
  }

  lemma ReadDigitsReads(n: nat, negative: bool, rest: string)
    requires IsInt64(Signed(negative, n)) && (rest == "" || !IsDigit(rest[0]))
    ensures ReadDigits(negative, Digits(n) + rest) == Some((Signed(negative, n), rest))
  {
    var digits := Digits(n);
    DigitCountAt(digits, rest);
    ValueOfDigits(n);
    assert (digits + rest)[..|digits|] == digits && (digits + rest)[|digits|..] == rest;
  }

  lemma NothingToSkip(s: string)
    requires s != "" && (IsDigit(s[0]) || s[0] == '-')
    ensures SkipSpace(s) == Some(s)
  {
  }

  lemma ReadsSigned(digits: string, rest: string)
    ensures ReadInt("-" + digits + rest) == ReadDigits(true, digits + rest)
  {
    var s := "-" + digits + rest;
    assert s[0] == '-' && s[1..] == digits + rest;
    NothingToSkip(s);
  }

  lemma ReadsUnsigned(digits: string, rest: string)
    requires digits != "" && IsDigit(digits[0])
    ensures ReadInt(digits + rest) == ReadDigits(false, digits + rest)
  {
    assert (digits + rest)[0] == digits[0];
    NothingToSkip(digits + rest);
  }

  lemma ReadIntReads(i: int, rest: string)
    requires IsInt64(i) && (rest == "" || !IsDigit(rest[0]))
    ensures ReadInt(FormatInt(i) + rest) == Some((i, rest))
  {
    if i < 0 {
      ReadDigitsReads(-i, true, rest);
      ReadsSigned(Digits(-i), rest);
    } else {
      ReadDigitsReads(i, false, rest);
      ReadsUnsigned(Digits(i), rest);
    }
  }

  /** A printed cursor parses to itself exactly when its id is a number as Go prints it. */
  lemma RoundTrip(c: Cursor)
    requires IsInt64(c.lastItemTimestamp)
    ensures ParsePaginationCursor(MakePaginationCursor(Some(c))) == Some(c) <==> IsCanonical(c.lastItemID)
  {
    var s := MakePaginationCursor(Some(c));
    if IsCanonical(c.lastItemID) {
      var i :| IsInt64(i) && c.lastItemID == FormatInt(i);
      var tail := ":" + FormatInt(c.lastItemTimestamp);
      assert s == FormatInt(i) + tail;
      ReadIntReads(i, tail);
      assert tail[1..] == FormatInt(c.lastItemTimestamp) + "";
      ReadIntReads(c.lastItemTimestamp, "");
    }
    if ParsePaginationCursor(s) == Some(c) {
      assert IsInt64(ReadInt(s).value.0);
    }
  }

  /** Whatever string is given, the parsed cursor is one that prints and parses to itself. */
  lemma ParsedIsCanonical(s: string)
    requires ParsePaginationCursor(s).Some?
    ensures var c := ParsePaginationCursor(s).value;
      && IsCanonical(c.lastItemID) && IsInt64(c.lastItemTimestamp)
      && ParsePaginationCursor(MakePaginationCursor(Some(c))) == Some(c)
  {
    var c := ParsePaginationCursor(s).value;
    assert IsInt64(ReadInt(s).value.0);
    RoundTrip(c);
  }

  lemma PrintingIsInjective(c: Cursor, d: Cursor)
    requires IsCanonical(c.lastItemID) && IsInt64(c.lastItemTimestamp)
    requires IsCanonical(d.lastItemID) && IsInt64(d.lastItemTimestamp)
    requires MakePaginationCursor(Some(c)) == MakePaginationCursor(Some(d))
    ensures c == d
  {
    RoundTrip(c);
    RoundTrip(d);
  }

  // ----- Where the round trip fails -----

  lemma LetterIsNoNumber(id: string, s: string)
    requires id <= s && id != "" && id[0] == 'm'
    ensures ReadInt(s) == None && ParsePaginationCursor(s) == None
  {
    assert s[0] == 'm' && SkipSpace(s) == Some(s);
    assert DigitCount(s) == 0;
  }

  /** An id that is no number is lost, and with it the whole cursor. */
  lemma LetterIsLost(timestamp: int)
    requires IsInt64(timestamp)
    ensures ParsePaginationCursor(MakePaginationCursor(Some(Cursor("m1", timestamp)))) == None
    ensures !IsCanonical("m1")
  {
    LetterIsNoNumber("m1", MakePaginationCursor(Some(Cursor("m1", timestamp))));
    RoundTrip(Cursor("m1", timestamp));
  }

  /** A number with leading zeros comes back without them; the time survives. */
  lemma ZerosAreLost()
    ensures ParsePaginationCursor(MakePaginationCursor(Some(Cursor("007", 5)))) == Some(Cursor("7", 5))
    ensures !IsCanonical("007")
  {
    var s := MakePaginationCursor(Some(Cursor("007", 5)));
    var tail := ":" + FormatInt(5);
    assert s == "007" + tail;
    DigitCountAt("007", tail);
    assert s[..3] == "007" && s[3..] == tail;
    assert "007"[..2] == "00" && "00"[..1] == "0" && "0"[..0] == "";
    assert ValueOf("00") == 0 && ValueOf("007") == 7;
    assert SkipSpace(s) == Some(s);
    assert ReadInt(s) == Some((7, tail));
    assert tail[1..] == FormatInt(5) + "";
    ReadIntReads(5, "");
    assert FormatInt(7) == "7";
    RoundTrip(Cursor("007", 5));
  }
}

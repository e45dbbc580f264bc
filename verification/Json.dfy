/**
 * The validity test that readLongPoll applies to its accumulator (encoding/json's Valid), as a
 * recogniser of the texts of section 2 of RFC 8259. Every char stands for one byte.
 */
module Json {
  import opened Basics

  predicate IsSpace(c: char) {
    c == ' ' || c == '\t' || c == '\n' || c == '\r'
  }

  predicate IsDigit(c: char) {
    '0' <= c <= '9'
  }

  predicate IsHex(c: char) {
    IsDigit(c) || 'a' <= c <= 'f' || 'A' <= c <= 'F'
  }

  /** Characters that neither open nor close anything. */
  predicate Plain(c: char) {
    c != '"' && c != '[' && c != ']' && c != '{' && c != '}'
  }

  /** The first position from i on that holds no white space. */
  function SkipSpace(s: string, i: nat): (j: nat)
    requires i <= |s|
    ensures i <= j <= |s|
    ensures forall k :: i <= k < j ==> Plain(s[k])
    decreases |s| - i
  {
    if i < |s| && IsSpace(s[i]) then SkipSpace(s, i + 1) else i
  }

  function SkipDigits(s: string, i: nat): (j: nat)
    requires i <= |s|
    ensures i <= j <= |s|
    ensures forall k :: i <= k < j ==> Plain(s[k])
    decreases |s| - i
  {
    if i < |s| && IsDigit(s[i]) then SkipDigits(s, i + 1) else i
  }

  /** The end of a run of at least one digit at i. */
  function Digits(s: string, i: nat): (r: Option<nat>)
    requires i <= |s|
    ensures r.Some? ==> i < r.value <= |s| && forall k :: i <= k < r.value ==> Plain(s[k])
  {
    if SkipDigits(s, i) == i then None else Some(SkipDigits(s, i))
  }

  function IntegerPart(s: string, i: nat): (r: Option<nat>)
    requires i <= |s|
    ensures r.Some? ==> i < r.value <= |s| && forall k :: i <= k < r.value ==> Plain(s[k])
  {
    if i < |s| && s[i] == '0' then Some(i + 1) else Digits(s, i)
  }

  function FractionPart(s: string, i: nat): (r: Option<nat>)
    requires i <= |s|
    ensures r.Some? ==> i <= r.value <= |s| && forall k :: i <= k < r.value ==> Plain(s[k])
  {
    if i < |s| && s[i] == '.' then Digits(s, i + 1) else Some(i)
  }

  function ExponentPart(s: string, i: nat): (r: Option<nat>)
    requires i <= |s|
    ensures r.Some? ==> i <= r.value <= |s| && forall k :: i <= k < r.value ==> Plain(s[k])
  {
    if i < |s| && (s[i] == 'e' || s[i] == 'E') then
      if i + 1 < |s| && (s[i + 1] == '+' || s[i + 1] == '-') then Digits(s, i + 2) else Digits(s, i + 1)
    else Some(i)
  }

  function Number(s: string, i: nat): (r: Option<nat>)
    requires i <= |s|
    ensures r.Some? ==> i < r.value <= |s| && forall k :: i <= k < r.value ==> Plain(s[k])
  {
    var start := if i < |s| && s[i] == '-' then i + 1 else i;
    match IntegerPart(s, start)
    case None => None
    case Some(j) =>
      match FractionPart(s, j)
      case None => None
      case Some(k) => ExponentPart(s, k)
  }

  function Literal(s: string, i: nat, word: string): (r: Option<nat>)
    requires i <= |s| && |word| > 0 && forall k :: 0 <= k < |word| ==> Plain(word[k])
    ensures r.Some? ==> i < r.value <= |s| && forall k :: i <= k < r.value ==> Plain(s[k])
  {
    if i + |word| <= |s| && s[i..i + |word|] == word then
      assert forall k :: i <= k < i + |word| ==> s[k] == s[i..i + |word|][k - i];
      Some(i + |word|)
    else None
  }

  /** The end of a string whose opening quote stands before i. */
  function StringRest(s: string, i: nat): (r: Option<nat>)
    requires i <= |s|
    ensures r.Some? ==> i < r.value <= |s|
    decreases |s| - i
  {
    if i == |s| || s[i] < ' ' then None
    else if s[i] == '"' then Some(i + 1)
    else if s[i] != '\\' then StringRest(s, i + 1)
    else if i + 1 == |s| then None
    else if s[i + 1] in "bfnrt\\/\"" then StringRest(s, i + 2)
    else if s[i + 1] == 'u' && i + 6 <= |s| && (forall k :: i + 2 <= k < i + 6 ==> IsHex(s[k])) then StringRest(s, i + 6)
    else None
  }

  /** The end of the value that starts exactly at i. */
  function Value(s: string, i: nat): (r: Option<nat>)
    requires i <= |s|
    ensures r.Some? ==> i < r.value <= |s|
    decreases |s| - i, 1
  {
    if i == |s| then None
    else if s[i] == '"' then StringRest(s, i + 1)
    else if s[i] == '[' then
      var j := SkipSpace(s, i + 1);
      if j < |s| && s[j] == ']' then Some(j + 1) else Elements(s, j)
    else if s[i] == '{' then
      var j := SkipSpace(s, i + 1);
      if j < |s| && s[j] == '}' then Some(j + 1) else Members(s, j)
    else if s[i] == 't' then Literal(s, i, "true")
    else if s[i] == 'f' then Literal(s, i, "false")
    else if s[i] == 'n' then Literal(s, i, "null")
    else Number(s, i)
  }

  /** The end of the array whose next element starts at i. */
  function Elements(s: string, i: nat): (r: Option<nat>)
    requires i <= |s|
    ensures r.Some? ==> i < r.value <= |s|
    decreases |s| - i, 2
  {
    match Value(s, i)
    case None => None
    case Some(j) =>
      var k := SkipSpace(s, j);
      if k == |s| then None
      else if s[k] == ']' then Some(k + 1)
      else if s[k] == ',' then Elements(s, SkipSpace(s, k + 1))
      else None
  }

  /** The end of the member that starts at i: a string, a colon and a value. */
  function Member(s: string, i: nat): (r: Option<nat>)
    requires i <= |s|
    ensures r.Some? ==> i < r.value <= |s|
    decreases |s| - i, 2
  {
    if i == |s| || s[i] != '"' then None
    else match StringRest(s, i + 1)
      case None => None
      case Some(j) =>
        var k := SkipSpace(s, j);
        if k == |s| || s[k] != ':' then None else Value(s, SkipSpace(s, k + 1))
  }

  /** The end of the object whose next member starts at i. */
  function Members(s: string, i: nat): (r: Option<nat>)
    requires i <= |s|
    ensures r.Some? ==> i < r.value <= |s|
    decreases |s| - i, 3
  {
    match Member(s, i)
    case None => None
    case Some(j) =>
      var k := SkipSpace(s, j);
      if k == |s| then None
      else if s[k] == '}' then Some(k + 1)
      else if s[k] == ',' then Members(s, SkipSpace(s, k + 1))
      else None
  }

  predicate Valid(s: string) {
    match Value(s, SkipSpace(s, 0))
    case None => false
    case Some(j) => SkipSpace(s, j) == |s|
  }

  /** A block of the long-poll stream: an array from its opening to its closing bracket. */
  predicate IsArrayText(s: string) {
    |s| > 0 && s[0] == '[' && Value(s, 0) == Some(|s|)
  }

  // ----- Brackets -----

  datatype Mode = Outside | InString | Escaped

  /** What one pass over the text knows: the bracket depth and whether it is inside a string. */
  datatype Scan = Scan(depth: int, mode: Mode)

  function Advance(st: Scan, c: char): Scan {
    match st.mode
    case Escaped => st.(mode := InString)
    case InString => if c == '"' then st.(mode := Outside) else if c == '\\' then st.(mode := Escaped) else st
    case Outside =>
      if c == '"' then st.(mode := InString)
      else if c == '[' || c == '{' then st.(depth := st.depth + 1)
      else if c == ']' || c == '}' then st.(depth := st.depth - 1)
      else st
  }

  function ScanOf(s: string, n: nat): Scan
    requires n <= |s|
  {
    if n == 0 then Scan(0, Outside) else Advance(ScanOf(s, n - 1), s[n - 1])
  }

  lemma {:induction false} ScanOfPrefix(s: string, t: string, n: nat)
    requires n <= |s| && n <= |t| && s[..n] == t[..n]
    ensures ScanOf(s, n) == ScanOf(t, n)
  {
    if n > 0 {
      assert s[..n - 1] == s[..n][..n - 1] && t[..n - 1] == t[..n][..n - 1];
      assert s[n - 1] == s[..n][n - 1] && t[n - 1] == t[..n][n - 1];
      ScanOfPrefix(s, t, n - 1);
    }
  }

  predicate IsAbove(s: string, k: nat, depth: int)
    requires k <= |s|
  {
    ScanOf(s, k).depth >= depth
  }

  /** From i to j the scan never drops below the given depth. */
  ghost predicate StaysAbove(s: string, i: nat, j: nat, depth: int) {
    i <= j <= |s| && forall k :: i <= k <= j ==> IsAbove(s, k, depth)
  }

  lemma {:induction false} PlainRun(s: string, i: nat, j: nat)
    requires i <= j <= |s|
    requires ScanOf(s, i).mode == Outside
    requires forall k :: i <= k < j ==> Plain(s[k])
    ensures ScanOf(s, j) == ScanOf(s, i)
    ensures StaysAbove(s, i, j, ScanOf(s, i).depth)
    decreases j
  {
    if i < j {
      PlainRun(s, i, j - 1);
    }
  }

  lemma {:induction false} StringBalanced(s: string, i: nat)
    requires i <= |s| && StringRest(s, i).Some?
    requires ScanOf(s, i).mode == InString
    ensures var j := StringRest(s, i).value;
      ScanOf(s, j) == Scan(ScanOf(s, i).depth, Outside) && StaysAbove(s, i, j, ScanOf(s, i).depth)
    decreases |s| - i
  {
    if s[i] == '"' {
    } else if s[i] != '\\' {
      StringBalanced(s, i + 1);
    } else if s[i + 1] in "bfnrt\\/\"" {
      StringBalanced(s, i + 2);
    } else {
      assert IsHex(s[i + 2]) && IsHex(s[i + 3]) && IsHex(s[i + 4]) && IsHex(s[i + 5]);
      HexRun(s, i);
      StringBalanced(s, i + 6);
    }
  }

  lemma HexRun(s: string, i: nat)
    requires i + 6 <= |s| && ScanOf(s, i).mode == InString && s[i] == '\\'
    requires IsHex(s[i + 2]) && IsHex(s[i + 3]) && IsHex(s[i + 4]) && IsHex(s[i + 5])
    ensures ScanOf(s, i + 6) == ScanOf(s, i) && StaysAbove(s, i, i + 6, ScanOf(s, i).depth)
  {
    assert ScanOf(s, i + 2) == ScanOf(s, i) by {
      assert ScanOf(s, i + 1) == ScanOf(s, i).(mode := Escaped);
    }
    assert ScanOf(s, i + 3) == ScanOf(s, i);
    assert ScanOf(s, i + 4) == ScanOf(s, i);
    assert ScanOf(s, i + 5) == ScanOf(s, i);
  }

  lemma Joined(s: string, i: nat, j: nat, k: nat, depth: int)
    requires StaysAbove(s, i, j, depth) && StaysAbove(s, j, k, depth)
    ensures StaysAbove(s, i, k, depth)
  {
  }

  lemma AboveAt(s: string, i: nat, j: nat, depth: int, k: nat)
    requires StaysAbove(s, i, j, depth) && i <= k <= j
    ensures ScanOf(s, k).depth >= depth
  {
    assert IsAbove(s, k, depth);
  }

  /** Brackets around what stays one level deeper. */
  lemma Enclosed(s: string, i: nat, j: nat, depth: int)
    requires i < j <= |s| && StaysAbove(s, i + 1, j - 1, depth + 1)
    requires ScanOf(s, i).depth >= depth && ScanOf(s, j).depth >= depth
    ensures StaysAbove(s, i, j, depth)
  {
    forall k | i <= k <= j
      ensures IsAbove(s, k, depth)
    {
      if i < k < j {
        AboveAt(s, i + 1, j - 1, depth + 1, k);
      }
    }
  }

  /** A value leaves the scan as it found it and never goes below the depth it started at. */
  lemma {:induction false} ValueBalanced(s: string, i: nat)
    requires i <= |s| && Value(s, i).Some?
    requires ScanOf(s, i).mode == Outside
    ensures var j := Value(s, i).value;
      ScanOf(s, j) == ScanOf(s, i) && StaysAbove(s, i, j, ScanOf(s, i).depth)
    decreases |s| - i, 1
  {
    var j := Value(s, i).value;
    if s[i] == '"' {
      StringBalanced(s, i + 1);
    } else if s[i] == '[' || s[i] == '{' {
      BodyBalanced(s, i);
      Enclosed(s, i, j, ScanOf(s, i).depth);
    } else {
      PlainRun(s, i, j);
    }
  }

  /** Between the brackets of an array or object the scan stays one level deeper. */
  lemma {:induction false} BodyBalanced(s: string, i: nat)
    requires i < |s| && Value(s, i).Some? && (s[i] == '[' || s[i] == '{')
    requires ScanOf(s, i).mode == Outside
    ensures var j := Value(s, i).value;
      ScanOf(s, j) == ScanOf(s, i) && StaysAbove(s, i + 1, j - 1, ScanOf(s, i).depth + 1)
    decreases |s| - i, 0
  {
    var j := SkipSpace(s, i + 1);
    PlainRun(s, i + 1, j);
    if s[i] == '[' {
      if s[j] != ']' {
        ElementsBalanced(s, j);
      }
    } else if s[j] != '}' {
      MembersBalanced(s, j);
    }
  }

  lemma {:induction false} ElementsBalanced(s: string, i: nat)
    requires i <= |s| && Elements(s, i).Some?
    requires ScanOf(s, i).mode == Outside
    ensures var j, depth := Elements(s, i).value, ScanOf(s, i).depth;
      ScanOf(s, j) == Scan(depth - 1, Outside) && StaysAbove(s, i, j - 1, depth)
    decreases |s| - i, 2
  {
    ValueBalanced(s, i);
    var j := Value(s, i).value;
    var k := SkipSpace(s, j);
    PlainRun(s, j, k);
    Joined(s, i, j, k, ScanOf(s, i).depth);
    if s[k] == ',' {
      var l := SkipSpace(s, k + 1);
      PlainRun(s, k, l);
      ElementsBalanced(s, l);
      Joined(s, i, k, l, ScanOf(s, i).depth);
    }
  }

  /** The name of a member, up to its colon and the space behind. */
  lemma NameBalanced(s: string, i: nat) returns (v: nat)
    requires i <= |s| && Member(s, i).Some?
    requires ScanOf(s, i).mode == Outside
    ensures i < v <= |s| && Member(s, i) == Value(s, v)
    ensures ScanOf(s, v) == ScanOf(s, i) && StaysAbove(s, i, v, ScanOf(s, i).depth)
  {
    StringBalanced(s, i + 1);
    var j := StringRest(s, i + 1).value;
    v := SkipSpace(s, SkipSpace(s, j) + 1);
    PlainRun(s, j, v);
    Joined(s, i, j, v, ScanOf(s, i).depth);
  }

  lemma {:induction false} MemberBalanced(s: string, i: nat)
    requires i <= |s| && Member(s, i).Some?
    requires ScanOf(s, i).mode == Outside
    ensures var j := Member(s, i).value;
      ScanOf(s, j) == ScanOf(s, i) && StaysAbove(s, i, j, ScanOf(s, i).depth)
    decreases |s| - i, 2
  {
    var v := NameBalanced(s, i);
    ValueBalanced(s, v);
    Joined(s, i, v, Value(s, v).value, ScanOf(s, i).depth);
  }

  lemma {:induction false} MembersBalanced(s: string, i: nat)
    requires i <= |s| && Members(s, i).Some?
    requires ScanOf(s, i).mode == Outside
    ensures var j, depth := Members(s, i).value, ScanOf(s, i).depth;
      ScanOf(s, j) == Scan(depth - 1, Outside) && StaysAbove(s, i, j - 1, depth)
    decreases |s| - i, 3
  {
    MemberBalanced(s, i);
    var j := Member(s, i).value;
    var k := SkipSpace(s, j);
    PlainRun(s, j, k);
    Joined(s, i, j, k, ScanOf(s, i).depth);
    if s[k] == ',' {
      var l := SkipSpace(s, k + 1);
      PlainRun(s, k, l);
      MembersBalanced(s, l);
      Joined(s, i, k, l, ScanOf(s, i).depth);
    }
  }

  /**
   * However much of the stream has been read from the start of an array on, it is valid JSON
   * exactly when it is the array itself: neither a part of it nor the array with what follows.
   */
  lemma ValidOnlyAtTheEnd(block: string, after: string, read: string)
    requires IsArrayText(block)
    requires after != [] ==> !IsSpace(after[0])
    requires read <= block + after
    ensures Valid(read) <==> read == block
  {
    if read != [] {
      assert read[0] == (block + after)[0] == '[';
      if Value(read, 0).Some? {
        var j := Value(read, 0).value;
        BodyBalanced(read, 0);
        BodyBalanced(block, 0);
        var m := if j < |block| then j else |block|;
        assert read[..m] == (block + after)[..m] == block[..m];
        ScanOfPrefix(read, block, m);
        if j < |block| {
          AboveAt(block, 1, |block| - 1, 1, j);
        } else if j > |block| {
          AboveAt(read, 1, j - 1, 1, |block|);
        }
        assert j == |block|;
        assert read[..j] == block;
        if |read| > j {
          assert read[j] == (block + after)[j] == after[0];
        } else {
          assert read == block;
        }
      }
    }
  }
}

/**
 * Chunked media encryption (pkg/libgm/crypto/aesgcm.go).
 *
 * AES-GCM itself is an abstract AEAD in the sense of sections 2.1 and 2.2 of RFC 5116;
 * the random nonce of every chunk is a parameter.
 */
module AesGcm {
  import opened Basics

  type Byte = b: int | 0 <= b < 256
  type Bytes = seq<Byte>

  const NONCE_SIZE := 12
  const TAG_SIZE := 16
  const CHUNK_OVERHEAD := NONCE_SIZE + TAG_SIZE
  const OUTGOING_RAW_CHUNK_SIZE := 32768
  const PLAIN_CHUNK_SIZE := OUTGOING_RAW_CHUNK_SIZE - CHUNK_OVERHEAD
  const UINT32 := 0x1_0000_0000

  type Nonce = n: Bytes | |n| == NONCE_SIZE witness seq(NONCE_SIZE, i => 0)

  /** seal(nonce, plaintext, aad) and open(nonce, ciphertext, aad). */
  datatype Aead = Aead(seal: (Nonce, Bytes, Bytes) -> Bytes, open: (Nonce, Bytes, Bytes) -> Option<Bytes>) {

    ghost predicate SealLaw(n: Nonce, p: Bytes, a: Bytes) {
      |seal(n, p, a)| == |p| + TAG_SIZE && open(n, seal(n, p, a), a) == Some(p)
    }

    ghost predicate OpenLaw(n: Nonce, c: Bytes, a: Bytes) {
      open(n, c, a).Some? ==> |c| == |open(n, c, a).value| + TAG_SIZE
    }

    /** What RFC 5116 promises of any AEAD, with GCM's tag length. */
    ghost predicate Lawful() {
      && (forall n, p, a :: SealLaw(n, p, a))
      && (forall n, c, a :: OpenLaw(n, c, a))
    }
  }

  /** The laws can be met: a cipher without secrecy, whose tag is constant, meets them. */
  lemma LawsAreSatisfiable() returns (plainText: Aead)
    ensures plainText.Lawful()
  {
    var tag: Bytes := seq(TAG_SIZE, i => 0);
    plainText := Aead(
      (n, p, a) => p + tag,
      (n, c: Bytes, a) => if |c| >= TAG_SIZE && c[|c| - TAG_SIZE..] == tag then Some(c[..|c| - TAG_SIZE]) else None);
    forall n, p, a
      ensures plainText.SealLaw(n, p, a)
    {
      assert (p + tag)[..|p|] == p && (p + tag)[|p|..] == tag;
    }
    forall n, c, a
      ensures plainText.OpenLaw(n, c, a)
    {
    }
  }

  /** The number of pieces of the given size that a buffer is cut into: the quotient rounded up. */
  function ChunkCount(length: nat, size: nat): (count: nat)
    requires size > 0
  {
    if length == 0 then 0 else 1 + ChunkCount(length - Min(size, length), size)
  }

  lemma {:induction false} ChunkCountIsCeiling(length: nat, size: nat)
    requires size > 0
    ensures var count := ChunkCount(length, size);
      length <= count * size && (count > 0 ==> (count - 1) * size < length)
  {
    if length > size {
      ChunkCountIsCeiling(length - size, size);
    }
  }

  function Head(s: Bytes, n: nat): Bytes {
    s[..Min(n, |s|)]
  }

  function Rest(s: Bytes, n: nat): Bytes {
    s[Min(n, |s|)..]
  }

  /** What is left of s behind its first n plaintext chunks. */
  function DropChunks(s: Bytes, n: nat): Bytes {
    if n == 0 then s else Rest(DropChunks(s, n - 1), PLAIN_CHUNK_SIZE)
  }

  lemma {:induction false} ChunksBefore(s: Bytes, n: nat)
    requires DropChunks(s, n) != []
    ensures n + ChunkCount(|DropChunks(s, n)|, PLAIN_CHUNK_SIZE) == ChunkCount(|s|, PLAIN_CHUNK_SIZE)
  {
    if n > 0 {
      ChunksBefore(s, n - 1);
    }
  }

  lemma IndexFits(s: Bytes, n: nat)
    requires DropChunks(s, n) != [] && ChunkCount(|s|, PLAIN_CHUNK_SIZE) < UINT32
    ensures n % UINT32 == n
  {
    ChunksBefore(s, n);
  }

  /** The big-endian form of index in the given number of bytes. */
  function BigEndian(index: nat, width: nat): (bytes: Bytes)
    ensures |bytes| == width
  {
    if width == 0 then [] else BigEndian(index / 256, width - 1) + [index % 256]
  }

  function Pow256(width: nat): nat {
    if width == 0 then 1 else 256 * Pow256(width - 1)
  }

  lemma {:induction false} BigEndianInjective(i: nat, j: nat, width: nat)
    requires i < Pow256(width) && j < Pow256(width)
    requires BigEndian(i, width) == BigEndian(j, width)
    ensures i == j
  {
    if width > 0 {
      var a, b := BigEndian(i, width), BigEndian(j, width);
      assert a[width - 1] == b[width - 1] && a[..width - 1] == b[..width - 1];
      assert a[..width - 1] == BigEndian(i / 256, width - 1) && b[..width - 1] == BigEndian(j / 256, width - 1);
      BigEndianInjective(i / 256, j / 256, width - 1);
    }
  }

  /** The additional data binds the position of a chunk and whether it is the last one. */
  function CalculateAad(index: nat, isLastChunk: bool): Bytes
    requires index < UINT32
  {
    [if isLastChunk then 1 else 0] + BigEndian(index, 4)
  }

  lemma AadInjective(i: nat, last: bool, j: nat, last': bool)
    requires i < UINT32 && j < UINT32
    requires CalculateAad(i, last) == CalculateAad(j, last')
    ensures i == j && last == last'
  {
    var a, b := CalculateAad(i, last), CalculateAad(j, last');
    assert a[0] == b[0] && a[1..] == b[1..];
    assert a[1..] == BigEndian(i, 4) && b[1..] == BigEndian(j, 4);
    assert Pow256(2) == 65536;
    BigEndianInjective(i, j, 4);
  }

  /** The flag comes first, then the position in four bytes, the highest first. */
  lemma AadIs(index: nat, last: bool)
    requires index < UINT32
    ensures var aad := CalculateAad(index, last);
      && |aad| == 5 && aad[0] == (if last then 1 else 0)
      && (aad[1] as int) * 0x100_0000 + (aad[2] as int) * 0x1_0000 + (aad[3] as int) * 0x100 + aad[4] == index
  {
    var i1, i2, i3 := index / 256, index / 256 / 256, index / 256 / 256 / 256;
    assert BigEndian(i3, 1) == BigEndian(i3 / 256, 0) + [i3 % 256];
    assert BigEndian(i2, 2) == BigEndian(i3, 1) + [i2 % 256];
    assert BigEndian(i1, 3) == BigEndian(i2, 2) + [i1 % 256];
    assert BigEndian(index, 4) == BigEndian(i1, 3) + [index % 256];
  }

  lemma WrapNext(n: nat)
    ensures (n % UINT32 + 1) % UINT32 == (n + 1) % UINT32
  {
  }

  datatype DecryptError = InvalidHeader | ChunkFailed(index: nat)

  /** 1 << exponent in a signed 64-bit integer, whose bits fall off at the top. */
  function ChunkSize(exponent: Byte): int {
    if exponent <= 62 then Pow2(exponent) else if exponent == 63 then -0x8000_0000_0000_0000 else 0
  }

  datatype AesGcmHelper = AesGcmHelper(key: Bytes, gcm: Aead) {

    // ----- What the two operations compute -----

    function SealChunk(plain: Bytes, nonce: Nonce, aad: Bytes): Bytes {
      nonce + gcm.seal(nonce, plain, aad)
    }

    function OpenChunk(chunk: Bytes, aad: Bytes): Option<Bytes> {
      if |chunk| < NONCE_SIZE then None
      else gcm.open(chunk[..NONCE_SIZE], chunk[NONCE_SIZE..], aad)
    }

    /** The sealed form of data, whose first byte opens chunk number index. */
    function SealFrom(data: Bytes, nonces: nat -> Nonce, index: nat): Bytes
      decreases |data|
    {
      if data == [] then []
      else
        SealChunk(Head(data, PLAIN_CHUNK_SIZE), nonces(index),
                  CalculateAad(index % UINT32, |data| <= PLAIN_CHUNK_SIZE))
        + SealFrom(Rest(data, PLAIN_CHUNK_SIZE), nonces, index + 1)
    }

    /** Opens body as chunks of the given sealed size, the first one being number index. */
    function OpenFrom(body: Bytes, size: nat, index: nat): Result<Bytes, DecryptError>
      requires size > 0
      decreases |body|
    {
      if body == [] then Ok([])
      else match OpenChunk(Head(body, size), CalculateAad(index % UINT32, |body| <= size))
        case None => Err(ChunkFailed((index + 1) % UINT32))
        case Some(plain) =>
          Prepend(plain, OpenFrom(Rest(body, size), size, index + 1))
    }

    function Encrypted(data: Bytes, nonces: nat -> Nonce): Bytes {
      [0, 15] + SealFrom(data, nonces, 0)
    }

    /**
     * The inputs on which DecryptData returns at all. On the others the program panics: a header of
     * one byte, a negative chunk size with a body to cut, or a body shorter than the overhead of its
     * chunks.
     */
    predicate Decryptable(input: Bytes) {
      |input| > 0 && |key| == 32 && input[0] == 0 ==> 2 <= |input| && Cuttable(|input| - 2, ChunkSize(input[1]))
    }

    /** The chunk size 0 makes the first chunk too short to open, before anything else can go wrong. */
    predicate Cuttable(length: nat, size: int) {
      length == 0 || size == 0 || (size > 0 && CHUNK_OVERHEAD * ChunkCount(length, size) <= length)
    }

    function OpenBody(body: Bytes, size: int): Result<Bytes, DecryptError>
      requires Cuttable(|body|, size)
    {
      if body == [] then Ok([])
      else if size == 0 then Err(ChunkFailed(1))
      else OpenFrom(body, size, 0)
    }

    function Decrypted(input: Bytes): Result<Bytes, DecryptError>
      requires Decryptable(input)
    {
      if input == [] || |key| != 32 then Ok(input)
      else if input[0] != 0 then Err(InvalidHeader)
      else OpenBody(input[2..], ChunkSize(input[1]))
    }

    // ----- The loops -----

    lemma SealFromAt(data: Bytes, nonces: nat -> Nonce, i: nat, next: nat, index: nat)
      requires i < |data| && next == Min(i + PLAIN_CHUNK_SIZE, |data|)
      ensures SealFrom(data[i..], nonces, index)
        == SealChunk(data[i..next], nonces(index), CalculateAad(index % UINT32, i + PLAIN_CHUNK_SIZE >= |data|))
           + SealFrom(data[next..], nonces, index + 1)
    {
      assert Head(data[i..], PLAIN_CHUNK_SIZE) == data[i..next];
      assert Rest(data[i..], PLAIN_CHUNK_SIZE) == data[next..];
    }

    lemma SealBehind(data: Bytes, nonces: nat -> Nonce, i: nat, next: nat, index: nat, encrypted: Bytes)
      requires i < |data| && next == Min(i + PLAIN_CHUNK_SIZE, |data|)
      ensures encrypted + SealFrom(data[i..], nonces, index)
        == encrypted + SealChunk(data[i..next], nonces(index), CalculateAad(index % UINT32, i + PLAIN_CHUNK_SIZE >= |data|))
           + SealFrom(data[next..], nonces, index + 1)
    {
      SealFromAt(data, nonces, i, next, index);
      var chunk := SealChunk(data[i..next], nonces(index), CalculateAad(index % UINT32, i + PLAIN_CHUNK_SIZE >= |data|));
      var rest := SealFrom(data[next..], nonces, index + 1);
      assert encrypted + (chunk + rest) == encrypted + chunk + rest;
    }

    lemma OpenFromAt(body: Bytes, size: nat, i: nat, next: nat, index: nat)
      requires size > 0 && i < |body| && next == Min(i + size, |body|)
      ensures OpenFrom(body[i..], size, index)
        == match OpenChunk(body[i..next], CalculateAad(index % UINT32, i + size >= |body|))
           case None => Err(ChunkFailed((index + 1) % UINT32))
           case Some(plain) => Prepend(plain, OpenFrom(body[next..], size, index + 1))
    {
      assert Head(body[i..], size) == body[i..next];
      assert Rest(body[i..], size) == body[next..];
    }

    lemma OpenBehind(body: Bytes, size: nat, i: nat, next: nat, index: nat, decrypted: Bytes)
      requires size > 0 && i < |body| && next == Min(i + size, |body|)
      ensures Prepend(decrypted, OpenFrom(body[i..], size, index))
        == match OpenChunk(body[i..next], CalculateAad(index % UINT32, i + size >= |body|))
           case None => Err(ChunkFailed((index + 1) % UINT32))
           case Some(plain) => Prepend(decrypted + plain, OpenFrom(body[next..], size, index + 1))
    {
      OpenFromAt(body, size, i, next, index);
      var plain := OpenChunk(body[i..next], CalculateAad(index % UINT32, i + size >= |body|));
      if plain.Some? {
        PrependTwice(decrypted, plain.value, OpenFrom(body[next..], size, index + 1));
      }
    }

    method EncryptData(data: Bytes, nonces: nat -> Nonce) returns (encrypted: Bytes)
      ensures encrypted == Encrypted(data, nonces)
    {
      var chunkSize := PLAIN_CHUNK_SIZE;
      encrypted := [0, 15];
      var chunkIndex := 0;
      var sealed := 0; // draws from the source of randomness
      var i := 0;
      assert data[0..] == data;
      while i < |data|
        invariant 0 <= i <= |data|
        invariant i < |data| ==> chunkSize == PLAIN_CHUNK_SIZE
        invariant chunkIndex == sealed % UINT32
        invariant encrypted + SealFrom(data[i..], nonces, sealed) == Encrypted(data, nonces)
        decreases |data| - i
      {
        var isLastChunk := false;
        if i + chunkSize >= |data| {
          chunkSize := |data| - i;
          isLastChunk := true;
        }
        var aad := CalculateAad(chunkIndex, isLastChunk);
        SealBehind(data, nonces, i, i + chunkSize, sealed, encrypted);
        encrypted := encrypted + SealChunk(data[i..i + chunkSize], nonces(sealed), aad);
        WrapNext(sealed);
        chunkIndex := (chunkIndex + 1) % UINT32;
        sealed := sealed + 1;
        i := i + chunkSize;
      }
      assert data[i..] == [];
    }

    method DecryptData(input: Bytes) returns (r: Result<Bytes, DecryptError>)
      requires Decryptable(input)
      ensures r == Decrypted(input)
    {
      if |input| == 0 || |key| != 32 {
        return Ok(input);
      }
      if input[0] != 0 {
        return Err(InvalidHeader);
      }
      r := DecryptBody(input[2..], ChunkSize(input[1]));
    }

    /** The loop of DecryptData over the bytes behind the header. */
    method DecryptBody(body: Bytes, size: int) returns (r: Result<Bytes, DecryptError>)
      requires Cuttable(|body|, size)
      ensures r == OpenBody(body, size)
    {
      var chunkSize := size;
      var decrypted := [];
      var chunkIndex := 0;
      var i := 0;
      ghost var count := 0;
      ghost var whole := OpenBody(body, size);
      if size > 0 {
        assert body[0..] == body;
        PrependNothing(whole);
      }
      while i < |body|
        invariant 0 <= i <= |body|
        invariant i < |body| ==> chunkSize == size
        invariant chunkIndex == count % UINT32
        invariant size <= 0 ==> i == 0 && count == 0 && decrypted == []
        invariant size > 0 ==> whole == Prepend(decrypted, OpenFrom(body[i..], size, count))
        decreases |body| - i
      {
        var isLastChunk := false;
        if i + chunkSize >= |body| {
          chunkSize := |body| - i;
          isLastChunk := true;
        }
        var aad := CalculateAad(chunkIndex, isLastChunk);
        var plain := OpenChunk(body[i..i + chunkSize], aad);
        WrapNext(count);
        if size > 0 {
          OpenBehind(body, size, i, i + chunkSize, count, decrypted);
        } else {
          assert plain.None? && count == 0;
        }
        if plain.None? {
          return Err(ChunkFailed((chunkIndex + 1) % UINT32));
        }
        decrypted := decrypted + plain.value;
        chunkIndex := (chunkIndex + 1) % UINT32;
        count := count + 1;
        i := i + chunkSize;
      }
      assert body[i..] == [];
      assert decrypted + [] == decrypted;
      return Ok(decrypted);
    }

    // ----- Lengths -----

    lemma {:induction false} SealedLength(data: Bytes, nonces: nat -> Nonce, index: nat)
      requires gcm.Lawful()
      ensures |SealFrom(data, nonces, index)| == |data| + CHUNK_OVERHEAD * ChunkCount(|data|, PLAIN_CHUNK_SIZE)
      decreases |data|
    {
      if data != [] {
        SealedChunkOpens(
          Head(data, PLAIN_CHUNK_SIZE), nonces(index), CalculateAad(index % UINT32, |data| <= PLAIN_CHUNK_SIZE));
        SealedLength(Rest(data, PLAIN_CHUNK_SIZE), nonces, index + 1);
      }
    }

    lemma {:induction false} OpenedLength(body: Bytes, size: nat, index: nat)
      requires gcm.Lawful() && size > 0
      ensures var r := OpenFrom(body, size, index);
        r.Ok? ==> |r.value| == |body| - CHUNK_OVERHEAD * ChunkCount(|body|, size)
      decreases |body|
    {
      if body != [] {
        var chunk := Head(body, size);
        if |chunk| >= NONCE_SIZE {
          assert gcm.OpenLaw(chunk[..NONCE_SIZE], chunk[NONCE_SIZE..], CalculateAad(index % UINT32, |body| <= size));
        }
        OpenedLength(Rest(body, size), size, index + 1);
      }
    }

    /** The capacities that both operations reserve up front are exact. */
    lemma CapacitiesAreExact(data: Bytes, nonces: nat -> Nonce, input: Bytes)
      requires gcm.Lawful()
      requires Decryptable(input) && |key| == 32 && input != []
      ensures |Encrypted(data, nonces)| == 2 + |data| + CHUNK_OVERHEAD * ChunkCount(|data|, PLAIN_CHUNK_SIZE)
      ensures Decrypted(input).Ok? ==>
        |input| >= 2 && |Decrypted(input).value| ==
          |input| - 2 - if |input| == 2 then 0 else CHUNK_OVERHEAD * ChunkCount(|input| - 2, Pow2(input[1]))
    {
      SealedLength(data, nonces, 0);
      Pow2Positive(input[if |input| < 2 then 0 else 1]);
      if input[0] == 0 && |input| > 2 && input[1] <= 62 {
        OpenedLength(input[2..], Pow2(input[1]), 0);
      }
    }

    // ----- Where each chunk lies -----

    /** From chunk n on, the sealed form is that of the data from chunk n on. */
    lemma {:induction false} SealedFromChunk(data: Bytes, nonces: nat -> Nonce, index: nat, n: nat)
      requires gcm.Lawful() && 32740 * n < |data|
      ensures var sealed := SealFrom(data, nonces, index);
        32768 * n < |sealed| && sealed[32768 * n..] == SealFrom(data[32740 * n..], nonces, index + n)
      decreases n
    {
      var sealed := SealFrom(data, nonces, index);
      if n == 0 {
        SealedLength(data, nonces, index);
        assert sealed[0..] == sealed && data[0..] == data;
      } else {
        var head, rest := Head(data, PLAIN_CHUNK_SIZE), Rest(data, PLAIN_CHUNK_SIZE);
        var aad := CalculateAad(index % UINT32, |data| <= PLAIN_CHUNK_SIZE);
        var chunk, tail := SealChunk(head, nonces(index), aad), SealFrom(rest, nonces, index + 1);
        SealedChunkOpens(head, nonces(index), aad);
        SealedFromChunk(rest, nonces, index + 1, n - 1);
        assert rest[32740 * (n - 1)..] == data[32740 * n..];
        assert (chunk + tail)[32768 * n..] == tail[32768 * (n - 1)..];
      }
    }

    /**
     * An encrypted file starts with 0 and 15. Behind that, chunk n lies at a multiple of 32768 bytes: its
     * nonce and the sealed form of 32740 bytes of the data, or of what is left, bound to n and to
     * whether it is the last.
     */
    lemma ChunkLiesAt(data: Bytes, nonces: nat -> Nonce, n: nat)
      requires gcm.Lawful() && 32740 * n < |data|
      ensures var encrypted := Encrypted(data, nonces);
        var plain := data[32740 * n..Min(32740 * n + 32740, |data|)];
        var aad := CalculateAad(n % 0x1_0000_0000, 32740 * n + 32740 >= |data|);
        && encrypted[..2] == [0, 15] && 2 + 32768 * n < |encrypted|
        && nonces(n) + gcm.seal(nonces(n), plain, aad) <= encrypted[2 + 32768 * n..]
    {
      var sealed := SealFrom(data, nonces, 0);
      SealedFromChunk(data, nonces, 0, n);
      assert Encrypted(data, nonces)[2 + 32768 * n..] == sealed[32768 * n..];
      assert Head(data[32740 * n..], PLAIN_CHUNK_SIZE) == data[32740 * n..Min(32740 * n + 32740, |data|)];
    }

    /** What is left behind the first n chunks of the given size. */
    function BehindChunks(body: Bytes, size: nat, n: nat): Bytes
      decreases n
    {
      if n == 0 then body else BehindChunks(Rest(body, size), size, n - 1)
    }

    /** There is a chunk n and it opens as number index + n. */
    predicate ChunkOpens(body: Bytes, size: nat, index: nat, n: nat) {
      var left := BehindChunks(body, size, n);
      left != [] && OpenChunk(Head(left, size), CalculateAad((index + n) % 0x1_0000_0000, |left| <= size)).Some?
    }

    /** Behind n chunks that open, nothing is left to go wrong, or chunk n fails under its one-based number. */
    predicate DecidedAt(body: Bytes, size: nat, index: nat, n: nat)
      requires size > 0
    {
      && (BehindChunks(body, size, n) == [] ==> OpenFrom(body, size, index).Ok?)
      && (BehindChunks(body, size, n) != [] && !ChunkOpens(body, size, index, n) ==>
          OpenFrom(body, size, index) == Err(ChunkFailed((index + n + 1) % 0x1_0000_0000)))
    }

    /** A body fails exactly when some chunk does not open as the number it stands at, and the error names the first. */
    lemma {:induction false} FailsAtFirst(body: Bytes, size: nat, index: nat, n: nat)
      requires size > 0
      requires forall j :: 0 <= j < n ==> ChunkOpens(body, size, index, j)
      ensures DecidedAt(body, size, index, n)
      decreases n
    {
      FirstDecides(body, size, index);
      if n > 0 {
        var rest, next := Rest(body, size), index + 1;
        assert ChunkOpens(body, size, index, 0);
        forall j | 0 <= j < n - 1
          ensures ChunkOpens(rest, size, next, j)
        {
          assert ChunkOpens(body, size, index, j + 1);
          ChunkShifts(body, size, index, j);
        }
        FailsAtFirst(rest, size, next, n - 1);
        DecidedShifts(body, size, index, n);
      }
    }

    lemma DecidedShifts(body: Bytes, size: nat, index: nat, n: nat)
      requires size > 0 && n > 0
      requires ChunkOpens(body, size, index, 0) && DecidedAt(Rest(body, size), size, index + 1, n - 1)
      ensures DecidedAt(body, size, index, n)
    {
      ChunkShifts(body, size, index, n - 1);
      FirstPasses(body, size, index);
      assert index + 1 + (n - 1) + 1 == index + n + 1;
    }

    lemma FirstPasses(body: Bytes, size: nat, index: nat)
      requires size > 0 && ChunkOpens(body, size, index, 0)
      ensures var rest := OpenFrom(Rest(body, size), size, index + 1);
        if rest.Ok? then OpenFrom(body, size, index).Ok? else OpenFrom(body, size, index) == rest
    {
    }

    lemma ChunkShifts(body: Bytes, size: nat, index: nat, j: nat)
      ensures ChunkOpens(Rest(body, size), size, index + 1, j) == ChunkOpens(body, size, index, j + 1)
      ensures BehindChunks(body, size, j + 1) == BehindChunks(Rest(body, size), size, j)
    {
      assert index + 1 + j == index + (j + 1);
    }

    lemma FirstDecides(body: Bytes, size: nat, index: nat)
      requires size > 0
      ensures body == [] ==> OpenFrom(body, size, index) == Ok([])
      ensures body != [] && !ChunkOpens(body, size, index, 0) ==>
        OpenFrom(body, size, index) == Err(ChunkFailed((index + 1) % 0x1_0000_0000))
    {
    }

    /** Without a 32-byte key, and for nothing, decrypting passes the input through; any other needs a first byte of 0. */
    lemma HeaderDecides(input: Bytes)
      requires Decryptable(input)
      ensures input == [] || |key| != 32 ==> Decrypted(input) == Ok(input)
      ensures input != [] && |key| == 32 ==> (Decrypted(input) == Err(InvalidHeader) <==> input[0] != 0)
    {
      if input != [] && |key| == 32 && input[0] == 0 && ChunkSize(input[1]) > 0 {
        ChunkErrorsOnly(input[2..], ChunkSize(input[1]), 0);
      }
    }

    lemma {:induction false} ChunkErrorsOnly(body: Bytes, size: nat, index: nat)
      requires size > 0
      ensures OpenFrom(body, size, index) != Err(InvalidHeader)
      decreases |body|
    {
      if body != [] {
        ChunkErrorsOnly(Rest(body, size), size, index + 1);
      }
    }

    // ----- Round trip -----

    lemma {:induction false} OpenInvertsSeal(data: Bytes, nonces: nat -> Nonce, index: nat)
      requires gcm.Lawful()
      ensures OpenFrom(SealFrom(data, nonces, index), OUTGOING_RAW_CHUNK_SIZE, index) == Ok(data)
      decreases |data|
    {
      if data != [] {
        var head, rest := Head(data, PLAIN_CHUNK_SIZE), Rest(data, PLAIN_CHUNK_SIZE);
        var aad := CalculateAad(index % UINT32, |data| <= PLAIN_CHUNK_SIZE);
        var chunk := SealChunk(head, nonces(index), aad);
        var tail := SealFrom(rest, nonces, index + 1);
        OpenInvertsSeal(rest, nonces, index + 1);
        SealedLength(rest, nonces, index + 1);
        SealedChunkOpens(head, nonces(index), aad);
        CutAt(chunk, tail, OUTGOING_RAW_CHUNK_SIZE);
        assert head + rest == data;
      }
    }

    /** For every byte string, the empty one and exact multiples of the chunk size included. */
    lemma DecryptInvertsEncrypt(data: Bytes, nonces: nat -> Nonce)
      requires gcm.Lawful() && |key| == 32
      ensures Decryptable(Encrypted(data, nonces))
      ensures Decrypted(Encrypted(data, nonces)) == Ok(data)
    {
      var sealed := SealFrom(data, nonces, 0);
      assert Encrypted(data, nonces)[2..] == sealed;
      Pow2Of15();
      SealedLength(data, nonces, 0);
      SealedCount(data, nonces, 0);
      OpenInvertsSeal(data, nonces, 0);
    }

    lemma {:induction false} SealedCount(data: Bytes, nonces: nat -> Nonce, index: nat)
      requires gcm.Lawful()
      ensures ChunkCount(|SealFrom(data, nonces, index)|, OUTGOING_RAW_CHUNK_SIZE) == ChunkCount(|data|, PLAIN_CHUNK_SIZE)
      decreases |data|
    {
      if data != [] {
        var rest := Rest(data, PLAIN_CHUNK_SIZE);
        SealedCount(rest, nonces, index + 1);
        SealedLength(rest, nonces, index + 1);
        SealedChunkOpens(
          Head(data, PLAIN_CHUNK_SIZE), nonces(index), CalculateAad(index % UINT32, |data| <= PLAIN_CHUNK_SIZE));
      }
    }

    // ----- Tampering -----

    /** chunk is what EncryptData sealed as chunk number i, with the given additional data. */
    ghost predicate IsSealedChunk(data: Bytes, nonces: nat -> Nonce, i: nat, chunk: Bytes, aad: Bytes) {
      var suffix := DropChunks(data, i);
      && suffix != []
      && aad == CalculateAad(i % UINT32, |suffix| <= PLAIN_CHUNK_SIZE)
      && chunk == SealChunk(Head(suffix, PLAIN_CHUNK_SIZE), nonces(i), aad)
    }

    ghost predicate SealedOrClosed(data: Bytes, nonces: nat -> Nonce, chunk: Bytes, aad: Bytes) {
      OpenChunk(chunk, aad).Some? ==> exists i: nat :: IsSealedChunk(data, nonces, i, chunk, aad)
    }

    /**
     * The authenticity that an AEAD gives against whoever lacks the key: no slice of body opens
     * except the chunks that the one EncryptData call sealed.
     */
    ghost predicate NoForgery(data: Bytes, nonces: nat -> Nonce, body: Bytes) {
      forall chunk, aad :: IsSlice(chunk, body) ==> SealedOrClosed(data, nonces, chunk, aad)
    }

    lemma NoForgeryInRest(data: Bytes, nonces: nat -> Nonce, body: Bytes, n: nat)
      requires NoForgery(data, nonces, body)
      ensures NoForgery(data, nonces, Rest(body, n))
    {
      forall chunk, aad | IsSlice(chunk, Rest(body, n))
        ensures SealedOrClosed(data, nonces, chunk, aad)
      {
        SliceOfRest(chunk, body, n);
      }
    }

    /** A chunk that opens in position index is the chunk sealed in that position. */
    lemma OpenedChunkIsSealed(data: Bytes, nonces: nat -> Nonce, chunk: Bytes, last: bool, index: nat)
      requires ChunkCount(|data|, PLAIN_CHUNK_SIZE) < UINT32 && index < UINT32
      requires SealedOrClosed(data, nonces, chunk, CalculateAad(index, last))
      requires OpenChunk(chunk, CalculateAad(index, last)).Some?
      ensures IsSealedChunk(data, nonces, index, chunk, CalculateAad(index, last))
      ensures last == (|DropChunks(data, index)| <= PLAIN_CHUNK_SIZE)
    {
      var i: nat :| IsSealedChunk(data, nonces, i, chunk, CalculateAad(index, last));
      IndexFits(data, i);
      AadInjective(index, last, i % UINT32, |DropChunks(data, i)| <= PLAIN_CHUNK_SIZE);
    }

    lemma SealedChunkOpens(plain: Bytes, nonce: Nonce, aad: Bytes)
      requires gcm.Lawful()
      ensures |SealChunk(plain, nonce, aad)| == |plain| + CHUNK_OVERHEAD
      ensures OpenChunk(SealChunk(plain, nonce, aad), aad) == Some(plain)
    {
      assert gcm.SealLaw(nonce, plain, aad);
      var chunk := SealChunk(plain, nonce, aad);
      assert chunk[..NONCE_SIZE] == nonce && chunk[NONCE_SIZE..] == gcm.seal(nonce, plain, aad);
    }

    /** The first chunk of body is the first sealed chunk of suffix. */
    ghost predicate HeadIsSealed(suffix: Bytes, nonces: nat -> Nonce, body: Bytes, size: nat, index: nat) {
      var plain, aad := Head(suffix, PLAIN_CHUNK_SIZE), CalculateAad(index % UINT32, |body| <= size);
      && suffix != []
      && (|body| <= size) == (|suffix| <= PLAIN_CHUNK_SIZE)
      && Head(body, size) == SealChunk(plain, nonces(index), aad)
      && |Head(body, size)| == |plain| + CHUNK_OVERHEAD
      && OpenChunk(Head(body, size), aad) == Some(plain)
    }

    lemma OpenedHeadIsSealed(data: Bytes, nonces: nat -> Nonce, body: Bytes, size: nat, index: nat)
      requires gcm.Lawful() && NoForgery(data, nonces, body)
      requires ChunkCount(|data|, PLAIN_CHUNK_SIZE) < UINT32 && index < UINT32
      requires OpenChunk(Head(body, size), CalculateAad(index, |body| <= size)).Some?
      ensures HeadIsSealed(DropChunks(data, index), nonces, body, size, index)
    {
      var aad := CalculateAad(index, |body| <= size);
      HeadIsSlice(body, size);
      OpenedChunkIsSealed(data, nonces, Head(body, size), |body| <= size, index);
      SealedChunkOpens(Head(DropChunks(data, index), PLAIN_CHUNK_SIZE), nonces(index), aad);
    }

    /** One step of the next lemma, free of the laws of the AEAD. */
    lemma OpenedStep(suffix: Bytes, nonces: nat -> Nonce, body: Bytes, size: nat, index: nat)
      requires size > 0 && body != []
      requires HeadIsSealed(suffix, nonces, body, size, index)
      requires |body| > size ==>
        && Rest(body, size) == SealFrom(Rest(suffix, PLAIN_CHUNK_SIZE), nonces, index + 1)
        && OpenFrom(Rest(body, size), size, index + 1) == Ok(Rest(suffix, PLAIN_CHUNK_SIZE))
      ensures body == SealFrom(suffix, nonces, index)
      ensures OpenFrom(body, size, index) == Ok(suffix)
      ensures if |suffix| <= PLAIN_CHUNK_SIZE then |body| <= size else size == OUTGOING_RAW_CHUNK_SIZE
    {
      assert body == Head(body, size) + Rest(body, size);
      assert suffix == Head(suffix, PLAIN_CHUNK_SIZE) + Rest(suffix, PLAIN_CHUNK_SIZE);
    }

    lemma HeadOpens(body: Bytes, size: nat, index: nat)
      requires size > 0 && body != [] && index < UINT32 && OpenFrom(body, size, index).Ok?
      ensures OpenChunk(Head(body, size), CalculateAad(index, |body| <= size)).Some?
      ensures OpenFrom(Rest(body, size), size, index + 1).Ok?
    {
    }

    lemma NextIndexFits(data: Bytes, index: nat)
      requires ChunkCount(|data|, PLAIN_CHUNK_SIZE) < UINT32 && |DropChunks(data, index)| > PLAIN_CHUNK_SIZE
      ensures index + 1 < UINT32
    {
      assert DropChunks(data, index + 1) == Rest(DropChunks(data, index), PLAIN_CHUNK_SIZE) != [];
      ChunksBefore(data, index + 1);
    }

    /**
     * A non-empty run of chunks that opens as numbers index, index + 1, ... is the sealed form of
     * the data from chunk index on.
     */
    lemma {:induction false} OpenedIsSealed(data: Bytes, nonces: nat -> Nonce, body: Bytes, size: nat, index: nat)
      requires gcm.Lawful() && NoForgery(data, nonces, body)
      requires ChunkCount(|data|, PLAIN_CHUNK_SIZE) < UINT32
      requires size > 0 && body != [] && index < UINT32
      requires OpenFrom(body, size, index).Ok?
      ensures var suffix := DropChunks(data, index);
        && body == SealFrom(suffix, nonces, index)
        && OpenFrom(body, size, index) == Ok(suffix)
        && if |suffix| <= PLAIN_CHUNK_SIZE then |body| <= size else size == OUTGOING_RAW_CHUNK_SIZE
      decreases |body|
    {
      HeadOpens(body, size, index);
      OpenedHeadIsSealed(data, nonces, body, size, index);
      if |body| > size {
        NextIndexFits(data, index);
        NoForgeryInRest(data, nonces, body, size);
        OpenedIsSealed(data, nonces, Rest(body, size), size, index + 1);
      }
      OpenedStep(DropChunks(data, index), nonces, body, size, index);
    }

    /** The sealed body opens under every header that cuts it as it was cut when sealed. */
    lemma SealedIsOpened(data: Bytes, nonces: nat -> Nonce, size: nat)
      requires gcm.Lawful() && size > 0
      requires size == OUTGOING_RAW_CHUNK_SIZE || (|data| <= PLAIN_CHUNK_SIZE && |SealFrom(data, nonces, 0)| <= size)
      ensures OpenFrom(SealFrom(data, nonces, 0), size, 0) == Ok(data)
    {
      var body := SealFrom(data, nonces, 0);
      OpenInvertsSeal(data, nonces, 0);
      SealedLength(data, nonces, 0);
      if size != OUTGOING_RAW_CHUNK_SIZE && data != [] {
        assert Head(body, size) == Head(body, OUTGOING_RAW_CHUNK_SIZE) == body;
        assert Rest(body, size) == Rest(body, OUTGOING_RAW_CHUNK_SIZE) == [];
        assert OpenFrom([], size, 1) == OpenFrom([], OUTGOING_RAW_CHUNK_SIZE, 1);
      }
    }

    /**
     * Without forgery, a body opens exactly when it is the sealed body, cut as it was cut when
     * sealed, and then it opens to the original data.
     */
    lemma OpensOnlyTheOriginal(data: Bytes, nonces: nat -> Nonce, body: Bytes, size: nat)
      requires gcm.Lawful() && NoForgery(data, nonces, body)
      requires ChunkCount(|data|, PLAIN_CHUNK_SIZE) < UINT32
      requires size > 0 && body != []
      ensures OpenFrom(body, size, 0).Ok? ==> OpenFrom(body, size, 0).value == data
      ensures OpenFrom(body, size, 0).Ok? <==>
        && body == SealFrom(data, nonces, 0)
        && (size == OUTGOING_RAW_CHUNK_SIZE || (|data| <= PLAIN_CHUNK_SIZE && |body| <= size))
    {
      if OpenFrom(body, size, 0).Ok? {
        OpenedIsSealed(data, nonces, body, size, 0);
      } else if && body == SealFrom(data, nonces, 0)
                && (size == OUTGOING_RAW_CHUNK_SIZE || (|data| <= PLAIN_CHUNK_SIZE && |body| <= size)) {
        SealedIsOpened(data, nonces, size);
        assert false;
      }
    }

    /**
     * The same about whole inputs with a good first byte: reordered, dropped, repeated or truncated
     * chunks never decode to anything, as long as one chunk is left.
     */
    lemma AcceptsOnlyTheOriginal(data: Bytes, nonces: nat -> Nonce, input: Bytes)
      requires gcm.Lawful() && |key| == 32
      requires ChunkCount(|data|, PLAIN_CHUNK_SIZE) < UINT32
      requires |input| > 2 && input[0] == 0 && Decryptable(input)
      requires NoForgery(data, nonces, input[2..])
      ensures Decrypted(input).Ok? ==> Decrypted(input).value == data
      ensures var size := ChunkSize(input[1]);
        Decrypted(input).Ok? <==>
          && input[2..] == SealFrom(data, nonces, 0)
          && (size == OUTGOING_RAW_CHUNK_SIZE || (|data| <= PLAIN_CHUNK_SIZE && |input| - 2 <= size))
    {
      if ChunkSize(input[1]) > 0 {
        OpensOnlyTheOriginal(data, nonces, input[2..], ChunkSize(input[1]));
      }
    }
  }

  // ----- The hypotheses can be met together -----

  function Repeated(b: Byte, n: nat): (bytes: Bytes)
    ensures |bytes| == n && forall i :: 0 <= i < n ==> bytes[i] == b
  {
    seq(n, i => b)
  }

  /** A tag of ones for one sealed chunk, and of zeros for everything else. */
  function SingularTag(n: Nonce, p: Bytes, a: Bytes): (tag: Bytes)
    ensures |tag| == TAG_SIZE
  {
    Repeated(if n == Repeated(1, NONCE_SIZE) && p == [1] && a == CalculateAad(0, true) then 1 else 0, TAG_SIZE)
  }

  function SingularOpen(n: Nonce, c: Bytes, a: Bytes): Option<Bytes> {
    if |c| < TAG_SIZE then None
    else
      var p := c[..|c| - TAG_SIZE];
      if c[|c| - TAG_SIZE..] == SingularTag(n, p, a) then Some(p) else None
  }

  function SingularHelper(): AesGcmHelper {
    AesGcmHelper(Repeated(0, 32), Aead((n, p, a) => p + SingularTag(n, p, a), SingularOpen))
  }

  lemma SingularIsLawful()
    ensures SingularHelper().gcm.Lawful()
  {
    var gcm := SingularHelper().gcm;
    forall n, p, a
      ensures gcm.SealLaw(n, p, a)
    {
      var sealed := p + SingularTag(n, p, a);
      assert gcm.seal(n, p, a) == sealed;
      assert sealed[..|p|] == p && sealed[|p|..] == SingularTag(n, p, a);
    }
    forall n, c, a
      ensures gcm.OpenLaw(n, c, a)
    {
    }
  }

  function Ones(i: nat): Nonce {
    Repeated(1, NONCE_SIZE)
  }

  lemma SingularBody()
    ensures SingularHelper().SealFrom([1], Ones, 0) == Repeated(1, 29)
    ensures SingularHelper().SealChunk([1], Ones(0), CalculateAad(0, true)) == Repeated(1, 29)
  {
    var helper := SingularHelper();
    assert Head([1], PLAIN_CHUNK_SIZE) == [1] && Rest([1], PLAIN_CHUNK_SIZE) == [];
    assert helper.gcm.seal(Ones(0), [1], CalculateAad(0, true)) == [1] + Repeated(1, TAG_SIZE);
    assert helper.SealFrom([], Ones, 1) == [];
  }

  /** Of a row of ones, only the sealed chunk opens. */
  lemma OnlyOneOpens(chunk: Bytes, aad: Bytes)
    requires forall i :: 0 <= i < |chunk| ==> chunk[i] == 1
    requires SingularHelper().OpenChunk(chunk, aad).Some?
    ensures chunk == Repeated(1, 29) && aad == CalculateAad(0, true)
  {
    var n, c := chunk[..NONCE_SIZE], chunk[NONCE_SIZE..];
    assert n == Repeated(1, NONCE_SIZE);
    var p := c[..|c| - TAG_SIZE];
    assert SingularOpen(n, c, aad) == Some(p);
    assert c[|c| - TAG_SIZE..][0] == 1;
    assert SingularTag(n, p, aad)[0] == 1;
    assert |chunk| == 29;
  }

  /**
   * A lawful AEAD, a sealed body that opens, and no forgery in it: the hypotheses of
   * AcceptsOnlyTheOriginal hold together.
   */
  lemma NoForgeryIsPossible()
    ensures var helper, body := SingularHelper(), SingularHelper().SealFrom([1], Ones, 0);
      && helper.gcm.Lawful() && |helper.key| == 32
      && helper.NoForgery([1], Ones, body)
      && helper.OpenFrom(body, OUTGOING_RAW_CHUNK_SIZE, 0) == Ok([1])
  {
    var helper, body := SingularHelper(), Repeated(1, 29);
    SingularIsLawful();
    SingularBody();
    helper.OpenInvertsSeal([1], Ones, 0);
    forall chunk, aad | IsSlice(chunk, body)
      ensures helper.SealedOrClosed([1], Ones, chunk, aad)
    {
      if helper.OpenChunk(chunk, aad).Some? {
        OnlyOneOpens(chunk, aad);
        assert DropChunks([1], 0) == [1] && Head([1], PLAIN_CHUNK_SIZE) == [1];
        assert helper.IsSealedChunk([1], Ones, 0, chunk, aad);
      }
    }
  }

  ghost predicate IsSlice(s: Bytes, t: Bytes) {
    exists i, j :: 0 <= i <= j <= |t| && s == t[i..j]
  }

  lemma HeadIsSlice(s: Bytes, n: nat)
    ensures IsSlice(Head(s, n), s)
  {
    assert Head(s, n) == s[0..Min(n, |s|)];
  }

  lemma SliceOfRest(chunk: Bytes, s: Bytes, n: nat)
    requires IsSlice(chunk, Rest(s, n))
    ensures IsSlice(chunk, s)
  {
    var rest, m := Rest(s, n), Min(n, |s|);
    var i, j :| 0 <= i <= j <= |rest| && chunk == rest[i..j];
    forall k | 0 <= k < j - i
      ensures chunk[k] == s[m + i + k]
    {
      assert rest[i..j][k] == rest[i + k];
    }
    assert chunk == s[m + i..m + j];
  }

  function Prepend(prefix: Bytes, r: Result<Bytes, DecryptError>): Result<Bytes, DecryptError> {
    match r
    case Ok(tail) => Ok(prefix + tail)
    case Err(e) => Err(e)
  }

  lemma PrependNothing(r: Result<Bytes, DecryptError>)
    ensures Prepend([], r) == r
  {
    if r.Ok? {
      assert [] + r.value == r.value;
    }
  }

  lemma PrependTwice(a: Bytes, b: Bytes, r: Result<Bytes, DecryptError>)
    ensures Prepend(a + b, r) == Prepend(a, Prepend(b, r))
  {
    if r.Ok? {
      assert a + b + r.value == a + (b + r.value);
    }
  }

  lemma CutAt(first: Bytes, second: Bytes, n: nat)
    requires |first| <= n && (|first| < n ==> second == [])
    ensures Head(first + second, n) == first && Rest(first + second, n) == second
  {
  }

  lemma Pow2Of15()
    ensures Pow2(15) == OUTGOING_RAW_CHUNK_SIZE
  {
    assert Pow2(5) == 32;
    assert Pow2(10) == 1024;
  }
}

/**
  Serving a byte range of an encrypted envelope (app/src-tauri/src/server.rs, with the record layout of
  app/src-tauri/src/crypto/envelope/range.rs and the decoder of decrypt_reader.rs).

  The AEAD is ideal: under one envelope's key a record index opens exactly the record that was sealed
  for it, and the final record opens exactly when it is the one sealed for this plaintext.
*/
module EncryptedStream {
  import opened Common
  import opened MediaStream

  const AEAD_TAG_LENGTH := 16
  const FINAL_RECORD_SIZE := 68
  const MIN_CHUNK_SIZE := 65536
  const MAX_CHUNK_SIZE := 16777216
  const MAX_CIPHERTEXT_SIZE := 2_000_000_000

  /** An envelope as it was sealed: `records[i]` seals the i-th chunk of `plain`, `final` its digest. */
  datatype Envelope = Envelope(header: Bytes, chunkSize: nat, plain: Bytes, records: seq<Bytes>, final: Bytes)

  // ------------------------------------------------------------------ layout

  /** Unsigned integer division. */
  function Quotient(x: nat, d: nat): nat
    requires d > 0
  {
    x / d
  }

  function ChunkCount(size: nat, chunkSize: nat): nat
    requires chunkSize > 0
  {
    Quotient(size + chunkSize - 1, chunkSize)
  }

  /** Where chunk `i` starts in the plaintext. */
  function Lo(e: Envelope, i: nat): nat { if i == 0 then 0 else Lo(e, i - 1) + e.chunkSize }

  lemma {:induction false} LoIsProduct(e: Envelope, i: nat)
    ensures Lo(e, i) == i * e.chunkSize
  {
    if i > 0 {
      LoIsProduct(e, i - 1);
      assert i * e.chunkSize == (i - 1) * e.chunkSize + e.chunkSize;
    }
  }

  /** Where chunk `i` ends in the plaintext. */
  function Hi(e: Envelope, i: nat): nat { Min(Lo(e, i) + e.chunkSize, |e.plain|) }

  /** What the header parser and the envelope's length check establish before anything is streamed. */
  predicate Sealed(e: Envelope) {
    && MIN_CHUNK_SIZE <= e.chunkSize <= MAX_CHUNK_SIZE
    && 0 < |e.plain| && |e.header| + |e.plain| + FINAL_RECORD_SIZE <= MAX_CIPHERTEXT_SIZE
    && |e.records| == ChunkCount(|e.plain|, e.chunkSize)
    && |e.final| == FINAL_RECORD_SIZE
    && forall i {:trigger e.records[i]} :: 0 <= i < |e.records| ==> Lo(e, i) < |e.plain| && |e.records[i]| == Hi(e, i) - Lo(e, i) + AEAD_TAG_LENGTH
  }

  function PlainChunk(e: Envelope, i: nat): Bytes
    requires Lo(e, i) <= |e.plain|
  {
    e.plain[Lo(e, i)..Hi(e, i)]
  }

  /** The first `k` records. */
  function Upto(e: Envelope, k: nat): Bytes
    requires k <= |e.records|
  {
    Run(e.records, 0, k)
  }

  /** The envelope's body: every record in order, then the final record. */
  function Sealing(e: Envelope): Bytes { Upto(e, |e.records|) + e.final }

  lemma Division(x: nat, d: nat)
    requires d > 0
    ensures x == Quotient(x, d) * d + x % d && 0 <= x % d < d
  {
  }

  lemma {:induction false} MulMonotone(a: nat, b: nat, d: nat)
    requires a <= b
    ensures a * d <= b * d
  {
    if a < b {
      MulMonotone(a, b - 1, d);
      assert b * d == (b - 1) * d + d;
    }
  }

  lemma QuotientBelow(x: nat, d: nat, n: nat)
    requires d > 0 && x < n * d
    ensures Quotient(x, d) < n
  {
    Division(x, d);
    if n <= Quotient(x, d) {
      MulMonotone(n, Quotient(x, d), d);
    }
  }

  lemma QuotientIs(x: nat, d: nat, q: nat)
    requires d > 0 && q * d <= x < q * d + d
    ensures Quotient(x, d) == q
  {
    assert (q + 1) * d == q * d + d;
    QuotientBelow(x, d, q + 1);
    Division(x, d);
    assert (Quotient(x, d) + 1) * d == Quotient(x, d) * d + d;
    if Quotient(x, d) < q {
      MulMonotone(Quotient(x, d) + 1, q, d);
    }
  }

  lemma CeilingOfDivision(x: nat, d: nat)
    requires d > 0
    ensures ChunkCount(x, d) == if x % d == 0 then Quotient(x, d) else Quotient(x, d) + 1
    ensures x <= ChunkCount(x, d) * d < x + d
  {
    Division(x, d);
    Division(x + d - 1, d);
    var q := Quotient(x, d);
    assert (q + 1) * d == q * d + d;
    if x % d == 0 {
      QuotientIs(x + d - 1, d, q);
    } else {
      QuotientIs(x + d - 1, d, q + 1);
    }
  }

  lemma PositionInChunk(position: nat, d: nat, size: nat)
    requires d > 0 && position < size
    ensures Quotient(position, d) < ChunkCount(size, d)
    ensures Quotient(position, d) * d <= position < Quotient(position, d) * d + d
  {
    CeilingOfDivision(size, d);
    QuotientBelow(position, d, ChunkCount(size, d));
    Division(position, d);
  }

  lemma NextChunk(e: Envelope, i: nat)
    requires Sealed(e) && i + 1 < |e.records|
    ensures Hi(e, i) == Lo(e, i) + e.chunkSize == Lo(e, i + 1) < |e.plain|
  {
    assert |e.records[i + 1]| > 0;
  }

  lemma LastChunk(e: Envelope)
    requires Sealed(e)
    ensures |e.records| > 0
    ensures Hi(e, |e.records| - 1) == |e.plain|
  {
    var n := |e.records|;
    PositionInChunk(0, e.chunkSize, |e.plain|);
    CeilingOfDivision(|e.plain|, e.chunkSize);
    LoIsProduct(e, n);
  }

  lemma ChunkOf(e: Envelope, position: nat)
    requires Sealed(e) && position < |e.plain|
    ensures Quotient(position, e.chunkSize) < |e.records|
    ensures Lo(e, Quotient(position, e.chunkSize)) <= position < Hi(e, Quotient(position, e.chunkSize))
  {
    PositionInChunk(position, e.chunkSize, |e.plain|);
    LoIsProduct(e, Quotient(position, e.chunkSize));
  }

  /** `chunk_ciphertext_offset`: where a record starts in the body; none for an index out of range. */
  function ChunkCiphertextOffset(index: nat, chunkSize: nat, size: nat): Option<nat>
    requires chunkSize > 0
  {
    var fullChunks := Quotient(size, chunkSize);
    var remaining := size % chunkSize;
    if index < fullChunks then Some(index * (chunkSize + AEAD_TAG_LENGTH))
    else if index == fullChunks && remaining > 0 then Some(fullChunks * (chunkSize + AEAD_TAG_LENGTH))
    else None
  }

  lemma {:induction false} RecordsBefore(e: Envelope, i: nat)
    requires Sealed(e) && i < |e.records|
    ensures |Upto(e, i)| == i * (e.chunkSize + AEAD_TAG_LENGTH)
  {
    if i > 0 {
      RecordsBefore(e, i - 1);
      NextChunk(e, i - 1);
      assert i * (e.chunkSize + AEAD_TAG_LENGTH) == (i - 1) * (e.chunkSize + AEAD_TAG_LENGTH) + (e.chunkSize + AEAD_TAG_LENGTH);
    }
  }

  /** The offset is defined exactly for the envelope's records, and is where the record really starts. */
  lemma OffsetIsExact(e: Envelope, i: nat)
    requires Sealed(e)
    ensures ChunkCiphertextOffset(i, e.chunkSize, |e.plain|).Some? <==> i < |e.records|
    ensures i < |e.records| ==> ChunkCiphertextOffset(i, e.chunkSize, |e.plain|) == Some(|Upto(e, i)|)
  {
    CeilingOfDivision(|e.plain|, e.chunkSize);
    if i < |e.records| { RecordsBefore(e, i); }
  }

  /** The ciphertext of records `first..last`, with the final record for a whole-file read. */
  function RangeCipher(e: Envelope, first: nat, last: nat, wholeFile: bool): Bytes
    requires first <= last < |e.records|
  {
    Run(e.records, first, last + 1) + (if wholeFile then e.final else [])
  }

  function File(e: Envelope): Bytes { e.header + Sealing(e) }

  // ------------------------------------------------------------------ which ciphertext to fetch

  function AsU32(value: nat): nat { value % U32_LIMIT }

  datatype Fetch = Fetch(first: nat, last: nat, bodyStart: nat, length: nat, wholeFile: bool)

  /** The ciphertext range from record `first`, at body offset `a`, through record `last`, at body offset `b`. */
  function FetchRecords(e: Envelope, first: nat, last: nat, a: nat, b: nat, wholeFile: bool): Option<Fetch> {
    var lastOffset := last * e.chunkSize;
    var lastLength := Min(if lastOffset <= |e.plain| then |e.plain| - lastOffset else 0, e.chunkSize);
    var bodyStart := |e.header| + a;
    var bodyEnd := |e.header| + b + lastLength + AEAD_TAG_LENGTH - 1;
    if bodyEnd < bodyStart then None
    else Some(Fetch(first, last, bodyStart, bodyEnd - bodyStart + 1 + (if wholeFile then FINAL_RECORD_SIZE else 0), wholeFile))
  }

  /** The records and the ciphertext bytes a plaintext range needs. */
  function PlanFetch(e: Envelope, start: nat, end: nat): Option<Fetch>
    requires e.chunkSize > 0
  {
    if start > end || end >= |e.plain| then None
    else
      var first, last := AsU32(Quotient(start, e.chunkSize)), AsU32(Quotient(end, e.chunkSize));
      var a, b := ChunkCiphertextOffset(first, e.chunkSize, |e.plain|), ChunkCiphertextOffset(last, e.chunkSize, |e.plain|);
      if a.None? || b.None? then None
      else FetchRecords(e, first, last, a.value, b.value, start == 0 && end == |e.plain| - 1)
  }

  /** For every satisfiable range the plan exists, holds exactly the records that cover the range, and the
      records' lengths add up to the ciphertext requested: it is that window of the stored file. */
  lemma FetchCoversRange(e: Envelope, start: nat, end: nat)
    requires Sealed(e) && start <= end < |e.plain|
    ensures PlanFetch(e, start, end).Some?
    ensures var f := PlanFetch(e, start, end).value;
            && f.first <= f.last < |e.records|
            && Lo(e, f.first) <= start < Hi(e, f.first) && Lo(e, f.last) <= end < Hi(e, f.last)
            && (f.wholeFile <==> start == 0 && end == |e.plain| - 1)
            && (f.wholeFile ==> f.first == 0 && f.last == |e.records| - 1)
            && f.length == |RangeCipher(e, f.first, f.last, f.wholeFile)|
            && f.bodyStart + f.length <= |File(e)|
            && File(e)[f.bodyStart..f.bodyStart + f.length] == RangeCipher(e, f.first, f.last, f.wholeFile)
  {
    var first, last := Quotient(start, e.chunkSize), Quotient(end, e.chunkSize);
    RangeRecords(e, start, end);
    PlanOfRange(e, start, end);
    FileWindow(e, first, last, start == 0 && end == |e.plain| - 1);
  }

  lemma RangeRecords(e: Envelope, start: nat, end: nat)
    requires Sealed(e) && start <= end < |e.plain|
    ensures var first, last := Quotient(start, e.chunkSize), Quotient(end, e.chunkSize);
            && first <= last < |e.records| < U32_LIMIT
            && Lo(e, first) <= start < Hi(e, first) && Lo(e, last) <= end < Hi(e, last)
            && (start == 0 && end == |e.plain| - 1 ==> first == 0 && last == |e.records| - 1)
  {
    ChunkOf(e, start);
    ChunkOf(e, end);
    QuotientsOrdered(start, end, e.chunkSize);
    FewRecords(e);
    if start == 0 && end == |e.plain| - 1 {
      Division(0, e.chunkSize);
      WholeFileEndsLast(e, Quotient(end, e.chunkSize));
    }
  }

  lemma PlanOfRange(e: Envelope, start: nat, end: nat)
    requires Sealed(e) && start <= end < |e.plain|
    requires var first, last := Quotient(start, e.chunkSize), Quotient(end, e.chunkSize);
             first <= last < |e.records| < U32_LIMIT && Lo(e, last) <= end < Hi(e, last)
    ensures var first, last, wholeFile := Quotient(start, e.chunkSize), Quotient(end, e.chunkSize), start == 0 && end == |e.plain| - 1;
            PlanFetch(e, start, end) ==
              Some(Fetch(first, last, |e.header| + |Upto(e, first)|, |RangeCipher(e, first, last, wholeFile)|, wholeFile))
  {
    var first, last := Quotient(start, e.chunkSize), Quotient(end, e.chunkSize);
    OffsetIsExact(e, first);
    OffsetIsExact(e, last);
    var wholeFile := start == 0 && end == |e.plain| - 1;
    CipherLength(e, first, last, wholeFile);
    PlanIs(e, first, last, |Upto(e, first)|, |Upto(e, last)|, wholeFile, |RangeCipher(e, first, last, wholeFile)|);
    FitsU32(first);
    FitsU32(last);
  }

  lemma CipherLength(e: Envelope, first: nat, last: nat, wholeFile: bool)
    requires Sealed(e) && first <= last < |e.records|
    ensures |RangeCipher(e, first, last, wholeFile)| ==
              |Upto(e, last)| - |Upto(e, first)| + (Hi(e, last) - Lo(e, last)) + AEAD_TAG_LENGTH
              + (if wholeFile then FINAL_RECORD_SIZE else 0)
    ensures |Upto(e, first)| <= |Upto(e, last)|
  {
    RunLength(e, first, last);
  }

  lemma QuotientsOrdered(a: nat, b: nat, d: nat)
    requires a <= b && d > 0
    ensures Quotient(a, d) <= Quotient(b, d)
  {
    Division(b, d);
    assert (Quotient(b, d) + 1) * d == Quotient(b, d) * d + d;
    QuotientBelow(a, d, Quotient(b, d) + 1);
  }

  lemma FewRecords(e: Envelope)
    requires Sealed(e)
    ensures |e.records| <= |e.plain| < U32_LIMIT
  {
    CeilingOfDivision(|e.plain|, e.chunkSize);
    if |e.records| > |e.plain| {
      MulMonotone(|e.plain| + 1, |e.records|, e.chunkSize);
      assert (|e.plain| + 1) * e.chunkSize == |e.plain| * e.chunkSize + e.chunkSize;
      MulMonotone(1, e.chunkSize, |e.plain|);
    }
  }

  lemma WholeFileEndsLast(e: Envelope, last: nat)
    requires Sealed(e) && last < |e.records| && Hi(e, last) == |e.plain|
    ensures last == |e.records| - 1
  {
    if last + 1 < |e.records| {
      NextChunk(e, last);
    }
  }

  /** The length of a run of records, from the lengths of two prefixes. */
  lemma RunLength(e: Envelope, first: nat, last: nat)
    requires first <= last < |e.records|
    ensures |Run(e.records, first, last + 1)| == |Upto(e, last)| + |e.records[last]| - |Upto(e, first)|
    ensures |Upto(e, first)| <= |Upto(e, last)|
  {
    RunSplit(e.records, 0, first, last + 1);
    RunSplit(e.records, 0, first, last);
  }

  /** The plan, once the two records and where they start are known. */
  lemma PlanIs(e: Envelope, first: nat, last: nat, a: nat, b: nat, wholeFile: bool, length: nat)
    requires a <= b && Lo(e, last) < Hi(e, last) <= |e.plain|
    requires length == b - a + (Hi(e, last) - Lo(e, last)) + AEAD_TAG_LENGTH + (if wholeFile then FINAL_RECORD_SIZE else 0)
    ensures FetchRecords(e, first, last, a, b, wholeFile) == Some(Fetch(first, last, |e.header| + a, length, wholeFile))
  {
    LoIsProduct(e, last);
  }

  lemma FitsU32(value: nat)
    requires value < U32_LIMIT
    ensures AsU32(value) == value
  {
  }

  lemma FileWindow(e: Envelope, first: nat, last: nat, wholeFile: bool)
    requires first <= last < |e.records|
    requires wholeFile ==> last == |e.records| - 1
    ensures var from := |e.header| + |Upto(e, first)|;
            var cipher := RangeCipher(e, first, last, wholeFile);
            from + |cipher| <= |File(e)| && File(e)[from..from + |cipher|] == cipher
  {
    RunSplit(e.records, 0, first, last + 1);
    RunSplit(e.records, 0, last + 1, |e.records|);
    var cipher := RangeCipher(e, first, last, wholeFile);
    var after := if wholeFile then [] else Run(e.records, last + 1, |e.records|) + e.final;
    WindowAt(e.header, Upto(e, first), cipher, after);
    if wholeFile { Rejoin(e.header, Upto(e, first), Run(e.records, first, last + 1), [], e.final); }
    else { Rejoin(e.header, Upto(e, first), cipher, Run(e.records, last + 1, |e.records|), e.final); }
  }

  lemma Rejoin(a: Bytes, b: Bytes, c: Bytes, d: Bytes, f: Bytes)
    ensures a + ((b + c + d) + f) == a + b + c + (d + f)
    ensures d == [] ==> a + ((b + c) + f) == a + b + (c + f) + []
  {
  }

  lemma WindowAt(a: Bytes, b: Bytes, c: Bytes, d: Bytes)
    ensures |a| + |b| + |c| <= |a + b + c + d| && (a + b + c + d)[|a| + |b|..|a| + |b| + |c|] == c
  {
  }

  // ------------------------------------------------------------------ the ideal AEAD

  /** What the final record seals: chunk count, plaintext length and digest (by its preimage). */
  datatype FinalRecord = FinalRecord(chunkCount: nat, length: nat, digest: Bytes)

  function OpenRecord(e: Envelope, index: nat, ciphertext: Bytes): Option<Bytes>
    requires Sealed(e)
  {
    if index < |e.records| && ciphertext == e.records[index] then Some(PlainChunk(e, index)) else None
  }

  function OpenFinal(e: Envelope, ciphertext: Bytes): Option<FinalRecord> {
    if ciphertext == e.final then Some(FinalRecord(|e.records|, |e.plain|, e.plain)) else None
  }

  /** `decrypt_chunk_at`: one record on its own. */
  function DecryptChunkAt(e: Envelope, index: nat, ciphertext: Bytes): (plaintext: Option<Bytes>)
    requires Sealed(e)
    ensures plaintext.Some? <==> index < |e.records| && ciphertext == e.records[index]
    ensures plaintext.Some? ==> plaintext.value == PlainChunk(e, index)
  {
    if index >= |e.records| then None
    else if |ciphertext| != Hi(e, index) - Lo(e, index) + AEAD_TAG_LENGTH then None
    else OpenRecord(e, index, ciphertext)
  }

  // ------------------------------------------------------------------ which bytes may be fed

  /** No record or final record that `t` already contains in full is forged, and nothing follows the end. */
  predicate Authentic(e: Envelope, t: Bytes) {
    && (forall k: nat :: k <= |e.records| && |Upto(e, k)| <= |t| ==> Upto(e, k) <= t)
    && (|Sealing(e)| <= |t| ==> t == Sealing(e))
  }

  lemma RecordsPrefix(e: Envelope, i: nat, j: nat)
    requires i <= j <= |e.records|
    ensures Upto(e, i) <= Upto(e, j) <= Sealing(e)
  {
    RunSplit(e.records, 0, i, j);
    RunSplit(e.records, 0, j, |e.records|);
  }

  lemma NextRecord(e: Envelope, k: nat)
    requires k < |e.records|
    ensures Upto(e, k + 1) == Upto(e, k) + e.records[k]
  {
  }

  lemma PrefixIsAuthentic(e: Envelope, t: Bytes)
    requires t <= Sealing(e)
    ensures Authentic(e, t)
  {
    forall k: nat | k <= |e.records| && |Upto(e, k)| <= |t| ensures Upto(e, k) <= t {
      RecordsPrefix(e, k, k);
    }
  }

  lemma PartialRecordIsAuthentic(e: Envelope, k: nat, rest: Bytes)
    requires k < |e.records| && |rest| < |e.records[k]|
    ensures Authentic(e, Upto(e, k) + rest)
  {
    var t := Upto(e, k) + rest;
    NextRecord(e, k);
    RecordsPrefix(e, k + 1, |e.records|);
    forall i: nat | i <= |e.records| && |Upto(e, i)| <= |t| ensures Upto(e, i) <= t {
      if i <= k { RecordsPrefix(e, i, k); } else { RecordsPrefix(e, k + 1, i); }
    }
  }

  lemma ForgedRecordIsNot(e: Envelope, k: nat, rest: Bytes)
    requires k < |e.records| && |e.records[k]| <= |rest| && rest[..|e.records[k]|] != e.records[k]
    ensures !Authentic(e, Upto(e, k) + rest)
  {
    NextRecord(e, k);
    PrefixCancel(Upto(e, k), e.records[k], rest);
  }

  lemma PrefixCancel(front: Bytes, a: Bytes, b: Bytes)
    requires |a| <= |b|
    ensures front + a <= front + b <==> a == b[..|a|]
  {
    assert (front + b)[..|front + a|] == front + b[..|a|];
    assert (front + a)[|front|..] == a && (front + b[..|a|])[|front|..] == b[..|a|];
  }

  lemma AfterTheRecords(e: Envelope, rest: Bytes)
    ensures Authentic(e, Upto(e, |e.records|) + rest) <==> (|e.final| <= |rest| ==> rest == e.final)
  {
    var t := Upto(e, |e.records|) + rest;
    forall k: nat | k <= |e.records| ensures Upto(e, k) <= t {
      RecordsPrefix(e, k, |e.records|);
    }
    assert t == Sealing(e) <==> rest == e.final by {
      assert t[|Upto(e, |e.records|)|..] == rest && Sealing(e)[|Upto(e, |e.records|)|..] == e.final;
    }
  }

  lemma RecordSize(e: Envelope, k: nat)
    requires Sealed(e) && k < |e.records|
    ensures Lo(e, k) < |e.plain|
    ensures |e.records[k]| == Min(|e.plain| - Lo(e, k), e.chunkSize) + AEAD_TAG_LENGTH
    ensures PlainChunk(e, k) == e.plain[Lo(e, k)..Min(Lo(e, k + 1), |e.plain|)]
  {
  }

  lemma RecordConsumed(e: Envelope, k: nat, before: Bytes, after: Bytes, t: Bytes)
    requires k < |e.records| && t == Upto(e, k) + before
    requires before == e.records[k] + after
    ensures t == Upto(e, k + 1) + after
  {
    NextRecord(e, k);
  }

  // ------------------------------------------------------------------ the incremental decoder

  class DecryptReader {
    const e: Envelope
    var position: nat
    var chunkIndex: nat
    var hashed: Bytes
    var verified: bool
    var buffer: Bytes
    ghost var fed: Bytes

    ghost predicate Valid()
      reads this
    {
      && Sealed(e) && chunkIndex <= |e.records|
      && position == Min(Lo(e, chunkIndex), |e.plain|)
      && hashed == e.plain[..position]
      && if verified then chunkIndex == |e.records| && buffer == [] && fed == Sealing(e)
         else
           && fed == Upto(e, chunkIndex) + buffer
           && |buffer| < if chunkIndex < |e.records| then |e.records[chunkIndex]| else FINAL_RECORD_SIZE
    }

    constructor (e: Envelope)
      requires Sealed(e)
      ensures Valid() && fed == [] && this.e == e && position == 0 && !verified
    {
      this.e := e;
      position, chunkIndex, hashed, verified, buffer, fed := 0, 0, [], false, [], [];
      new;
      LastChunk(e);
      assert |e.records[0]| > 0;
    }

    /**
      Feed the next fragment of the body. It is accepted exactly when everything fed so far is authentic,
      and then returns exactly the plaintext of the records it completed.
    */
    method Feed(fragment: Bytes) returns (plaintext: Option<Bytes>)
      requires Valid()
      modifies this
      ensures plaintext.Some? <==> Authentic(e, old(fed) + fragment)
      ensures plaintext.Some? ==>
                && Valid() && fed == old(fed) + fragment
                && old(position) <= position && plaintext.value == e.plain[old(position)..position]
                && (verified <==> fed == Sealing(e))
    {
      ghost var t := fed + fragment;
      if verified {
        assert fed + [] == fed;
        PrefixIsAuthentic(e, fed);
        if fragment == [] {
          return Some([]);
        }
        return None;
      }
      assert t == Upto(e, chunkIndex) + (buffer + fragment);
      var output;
      buffer := buffer + fragment;
      output := Drain(t);
      if output.None? { return None; }
      if chunkIndex < |e.records| {
        fed := t;
        NeverShort(e, chunkIndex, buffer);
        return output;
      }
      AfterTheRecords(e, buffer);
      if |buffer| >= FINAL_RECORD_SIZE {
        var record := buffer[..FINAL_RECORD_SIZE];
        buffer := buffer[FINAL_RECORD_SIZE..];
        var result := OpenFinal(e, record);
        if result.None? { return None; }
        if
          || result.value.chunkCount != |e.records|
          || result.value.length != |e.plain|
          || chunkIndex != result.value.chunkCount
          || position != result.value.length
          || result.value.digest != hashed
        {
          AllChunksEndHere(e);
          return None;
        }
        verified := true;
        if buffer != [] { return None; }
      }
      fed := t;
      AllChunksEndHere(e);
      plaintext := output;
    }

    /** Decrypt every record the buffer holds in full. */
    method Drain(ghost t: Bytes) returns (output: Option<Bytes>)
      requires Sealed(e) && chunkIndex <= |e.records| && !verified
      requires position == Min(Lo(e, chunkIndex), |e.plain|) && hashed == e.plain[..position]
      requires t == Upto(e, chunkIndex) + buffer
      modifies this`position, this`chunkIndex, this`hashed, this`buffer
      ensures output.None? ==> !Authentic(e, t)
      ensures output.Some? ==>
                && chunkIndex <= |e.records|
                && position == Min(Lo(e, chunkIndex), |e.plain|) && hashed == e.plain[..position]
                && t == Upto(e, chunkIndex) + buffer
                && old(position) <= position && output.value == e.plain[old(position)..position]
                && (chunkIndex < |e.records| ==> |buffer| < |e.records[chunkIndex]| && Authentic(e, t))
    {
      hide Authentic, Upto, Run, Lo, Hi, PlainChunk;
      var out: Bytes := [];
      while chunkIndex < |e.records|
        invariant chunkIndex <= |e.records|
        invariant position == Min(Lo(e, chunkIndex), |e.plain|) && hashed == e.plain[..position]
        invariant t == Upto(e, chunkIndex) + buffer
        invariant old(position) <= position && out == e.plain[old(position)..position]
        decreases |e.records| - chunkIndex
      {
        RecordSize(e, chunkIndex);
        if |buffer| < Min(|e.plain| - position, e.chunkSize) + AEAD_TAG_LENGTH {
          PartialRecordIsAuthentic(e, chunkIndex, buffer);
          return Some(out);
        }
        var piece := OpenBuffered(t);
        if piece.None? { return None; }
        out := out + piece.value;
      }
      output := Some(out);
    }

    /** Decrypt the record at the front of the buffer. */
    method OpenBuffered(ghost t: Bytes) returns (piece: Option<Bytes>)
      requires Sealed(e) && chunkIndex < |e.records| && |buffer| >= |e.records[chunkIndex]|
      requires position == Min(Lo(e, chunkIndex), |e.plain|) && hashed == e.plain[..position]
      requires t == Upto(e, chunkIndex) + buffer
      modifies this`position, this`chunkIndex, this`hashed, this`buffer
      ensures piece.None? ==> !Authentic(e, t)
      ensures piece.Some? ==>
                && chunkIndex == old(chunkIndex) + 1 && t == Upto(e, chunkIndex) + buffer
                && position == Min(Lo(e, chunkIndex), |e.plain|) && hashed == e.plain[..position]
                && old(position) <= position && piece.value == e.plain[old(position)..position]
    {
      ghost var k, before := chunkIndex, buffer;
      RecordSize(e, k);
      var plaintextLength := Min(|e.plain| - position, e.chunkSize);
      var ciphertextLength := plaintextLength + AEAD_TAG_LENGTH;
      var record := buffer[..ciphertextLength];
      buffer := buffer[ciphertextLength..];
      var result := OpenRecord(e, chunkIndex, record);
      if result.None? || |result.value| != plaintextLength {
        ForgedRecordIsNot(e, k, before);
        return None;
      }
      RecordConsumed(e, k, before, buffer, t);
      hashed := hashed + result.value;
      position := position + plaintextLength;
      chunkIndex := chunkIndex + 1;
      piece := result;
    }

    method Finish() returns (ok: bool)
      requires Valid()
      ensures ok <==> fed == Sealing(e)
      ensures ok ==> position == |e.plain|
    {
      ok := verified && buffer == [];
      AllChunksEndHere(e);
      if !verified && chunkIndex < |e.records| {
        NextRecord(e, chunkIndex);
        RecordsPrefix(e, chunkIndex + 1, |e.records|);
      }
    }
  }

  /** A record still incomplete means the body is not complete. */
  lemma NeverShort(e: Envelope, k: nat, rest: Bytes)
    requires k < |e.records| && |rest| < |e.records[k]|
    ensures Upto(e, k) + rest != Sealing(e)
  {
    NextRecord(e, k);
    RecordsPrefix(e, k + 1, |e.records|);
  }

  lemma AllChunksEndHere(e: Envelope)
    requires Sealed(e)
    ensures Lo(e, |e.records|) >= |e.plain|
  {
    LastChunk(e);
  }

  /** However the body is fragmented, decoding succeeds exactly on the sealed body, with exactly its plaintext. */
  method DecryptAll(e: Envelope, fragments: seq<Bytes>) returns (plaintext: Option<Bytes>)
    requires Sealed(e)
    ensures plaintext.Some? <==> Flatten(fragments) == Sealing(e)
    ensures plaintext.Some? ==> plaintext.value == e.plain
  {
    var reader := new DecryptReader(e);
    var out: Bytes := [];
    for i := 0 to |fragments|
      invariant fresh(reader) && reader.e == e && reader.Valid() && reader.fed == Flatten(fragments[..i])
      invariant out == e.plain[..reader.position]
    {
      FragmentNext(fragments, i);
      if Flatten(fragments) == Sealing(e) { ForgeryIsFound(e, fragments, i + 1); }
      ghost var before := reader.position;
      var piece := reader.Feed(fragments[i]);
      if piece.None? { return None; }
      JoinSlices(e.plain, before, reader.position);
      out := out + piece.value;
    }
    assert fragments[..|fragments|] == fragments;
    var complete := reader.Finish();
    plaintext := if complete then Some(out) else None;
  }

  lemma FragmentNext(fragments: seq<Bytes>, i: nat)
    requires i < |fragments|
    ensures Flatten(fragments[..i + 1]) == Flatten(fragments[..i]) + fragments[i]
  {
    assert fragments[..i + 1] == fragments[..i] + [fragments[i]];
    FlattenSnoc(fragments[..i], fragments[i]);
  }

  lemma FragmentsPrefix(fragments: seq<Bytes>, i: nat)
    requires i <= |fragments|
    ensures Flatten(fragments[..i]) <= Flatten(fragments)
  {
    assert fragments == fragments[..i] + fragments[i..];
    FlattenAppend(fragments[..i], fragments[i..]);
  }

  /** A body whose next fragment is not authentic is not the sealed body. */
  lemma ForgeryIsFound(e: Envelope, fragments: seq<Bytes>, i: nat)
    requires i <= |fragments| && Flatten(fragments) == Sealing(e)
    ensures Authentic(e, Flatten(fragments[..i]))
  {
    FragmentsPrefix(fragments, i);
    PrefixIsAuthentic(e, Flatten(fragments[..i]));
  }
}

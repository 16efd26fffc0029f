/**
  The protected stream: fetch the records of a range, reassemble them from arbitrary download fragments,
  authenticate each one and pass on exactly the requested plaintext (app/src-tauri/src/server.rs).
*/
module EncryptedResponse {
  import opened Common
  import opened ByteRanges
  import opened MediaStream
  import opened EncryptedStream

  const DELIVERY_LIMIT := 65536

  // ------------------------------------------------------------------ buffering a download

  /** The first `next` items of a download are before whatever fails. */
  predicate Readable(download: Source, next: nat) {
    && next <= CleanItems(download) <= |download|
    && (forall k :: 0 <= k < CleanItems(download) ==> download[k].Chunk?)
  }

  /** Append download fragments to the buffer until it holds `required` bytes. */
  method Pull(download: Source, next: nat, buffer: Bytes, required: nat) returns (ok: bool, next': nat, buffer': Bytes, ghost added: Bytes)
    requires Readable(download, next)
    ensures next <= next' <= CleanItems(download)
    ensures buffer' == buffer + added
    ensures Received(download, next') == Received(download, next) + added
    ensures ok <==> |buffer'| >= required
    ensures !ok ==> next' == CleanItems(download)
  {
    CleanItemsIsMaximal(download);
    next', buffer', added := next, buffer, [];
    while |buffer'| < required
      invariant next <= next' <= CleanItems(download)
      invariant buffer' == buffer + added
      invariant Received(download, next') == Received(download, next) + added
      decreases |download| - next'
    {
      if next' == |download| || download[next'].Failure? {
        return false, next', buffer', added;
      }
      buffer' := buffer' + download[next'].bytes;
      added := added + download[next'].bytes;
      next' := next' + 1;
    }
    ok := true;
  }

  // ------------------------------------------------------------------ what has been sent so far

  /** The plaintext position reached before record `i` is delivered. */
  function Reached(e: Envelope, start: nat, end: nat, i: nat): nat {
    if Lo(e, i) <= start then start else Min(Lo(e, i), end + 1)
  }

  /** The part of a record's plaintext, which starts at `lo`, that the range asks for. */
  function Portion(lo: nat, start: nat, end: nat, plaintext: Bytes): Bytes
    requires start <= end && lo <= end && start <= lo + |plaintext|
  {
    var from := if start <= lo then 0 else start - lo;
    var to := Min(end - lo + 1, |plaintext|);
    plaintext[from..to]
  }

  /** A plan that covers the range, as `FetchCoversRange` establishes. */
  predicate Covers(e: Envelope, f: Fetch, start: nat, end: nat) {
    && Sealed(e) && start <= end < |e.plain|
    && f.first <= f.last < |e.records|
    && Lo(e, f.first) <= start < Hi(e, f.first) && Lo(e, f.last) <= end < Hi(e, f.last)
    && (f.wholeFile ==> f.first == 0 && f.last == |e.records| - 1)
    && f.length == |RangeCipher(e, f.first, f.last, f.wholeFile)|
  }

  lemma SliceOfSlice(s: Bytes, lo: nat, hi: nat, from: nat, to: nat)
    requires lo <= hi <= |s| && from <= to <= hi - lo
    ensures s[lo..hi][from..to] == s[lo + from..lo + to]
  {
    forall i | 0 <= i < to - from ensures s[lo..hi][from..to][i] == s[lo + from..lo + to][i] {
      assert s[lo..hi][from + i] == s[lo + (from + i)];
    }
  }

  lemma PortionOfSlice(plain: Bytes, lo: nat, hi: nat, start: nat, end: nat)
    requires lo <= hi <= |plain| && start <= end < |plain| && lo <= end && start <= hi
    ensures var a := if lo <= start then start else lo;
            Portion(lo, start, end, plain[lo..hi]) == plain[a..Min(end + 1, hi)]
  {
    SliceOfSlice(plain, lo, hi, if start <= lo then 0 else start - lo, Min(end - lo + 1, hi - lo));
  }

  lemma Join(s: Bytes, from: nat, a: nat, b: nat)
    requires from <= a <= b <= |s|
    ensures s[from..a] + s[a..b] == s[from..b]
  {
  }

  /** A record inside the range: where it lies, and that it reaches past the range's start. */
  lemma RecordInRange(e: Envelope, start: nat, end: nat, f: Fetch, i: nat)
    requires Covers(e, f, start, end) && f.first <= i <= f.last
    ensures Lo(e, i) <= end && start < Hi(e, i) && Lo(e, i) < Hi(e, i) <= |e.plain| && Lo(e, i + 1) >= Hi(e, i)
    ensures Lo(e, i + 1) == Hi(e, i) || Hi(e, i) == |e.plain|
  {
    RecordSize(e, i);
    LoMonotone(e, f.first, i);
    LoMonotone(e, i, f.last);
  }

  lemma PortionAdvances(e: Envelope, start: nat, end: nat, f: Fetch, i: nat)
    requires Covers(e, f, start, end) && f.first <= i <= f.last
    ensures Lo(e, i) <= end && start <= Hi(e, i) && Lo(e, i) <= Hi(e, i)
    ensures start <= Reached(e, start, end, i) <= Reached(e, start, end, i + 1) <= end + 1
    ensures e.plain[start..Reached(e, start, end, i)] + Portion(Lo(e, i), start, end, e.plain[Lo(e, i)..Hi(e, i)])
              == e.plain[start..Reached(e, start, end, i + 1)]
  {
    RecordInRange(e, start, end, f, i);
    PortionOfSlice(e.plain, Lo(e, i), Hi(e, i), start, end);
    Join(e.plain, start, Reached(e, start, end, i), Reached(e, start, end, i + 1));
  }

  lemma {:induction false} LoMonotone(e: Envelope, i: nat, j: nat)
    requires i <= j
    ensures Lo(e, i) <= Lo(e, j) && (i < j ==> Lo(e, i) + e.chunkSize <= Lo(e, j))
  {
    if i < j { LoMonotone(e, i, j - 1); }
  }

  lemma RangeEnds(e: Envelope, start: nat, end: nat, f: Fetch)
    requires Covers(e, f, start, end)
    ensures Reached(e, start, end, f.first) == start
    ensures Reached(e, start, end, f.last + 1) == end + 1
  {
  }

  // ------------------------------------------------------------------ what the download must contain

  /** The range's ciphertext, split around record `i`. */
  lemma CipherAround(e: Envelope, f: Fetch, i: nat) returns (rest: Bytes)
    requires f.first <= i <= f.last < |e.records|
    ensures RangeCipher(e, f.first, f.last, f.wholeFile) == Run(e.records, f.first, i) + (e.records[i] + rest)
  {
    RunSplit(e.records, f.first, i + 1, f.last + 1);
    rest := Run(e.records, i + 1, f.last + 1) + (if f.wholeFile then e.final else []);
  }

  /** A download that ends inside record `i`, or holds other bytes where it belongs, is not the range's ciphertext. */
  lemma WrongRecord(e: Envelope, f: Fetch, i: nat, buffer: Bytes, more: Bytes)
    requires f.first <= i <= f.last < |e.records|
    requires if |buffer| < |e.records[i]| then more == [] else buffer[..|e.records[i]|] != e.records[i]
    ensures Run(e.records, f.first, i) + buffer + more != RangeCipher(e, f.first, f.last, f.wholeFile)
  {
    var rest := CipherAround(e, f, i);
    Differs(Run(e.records, f.first, i), e.records[i], rest, buffer, more);
  }

  lemma Differs(front: Bytes, record: Bytes, rest: Bytes, buffer: Bytes, more: Bytes)
    requires if |buffer| < |record| then more == [] else buffer[..|record|] != record
    ensures front + buffer + more != front + (record + rest)
  {
    var left, right := front + buffer + more, front + (record + rest);
    assert left[|front|..] == buffer + more;
    assert right[|front|..] == record + rest;
    if |buffer| >= |record| {
      assert (buffer + more)[..|record|] == buffer[..|record|];
      assert (record + rest)[..|record|] == record;
    }
  }

  // ------------------------------------------------------------------ one record at a time

  /** Fed record by record, the decoder stands exactly between two records. */
  lemma OneRecord(e: Envelope, i: nat, ciphertext: Bytes)
    requires i < |e.records| && |ciphertext| == |e.records[i]|
    ensures Authentic(e, Upto(e, i) + ciphertext) <==> ciphertext == e.records[i]
  {
    if ciphertext == e.records[i] {
      NextRecord(e, i);
      RecordsPrefix(e, i + 1, i + 1);
      PrefixIsAuthentic(e, Upto(e, i + 1));
    } else {
      assert ciphertext[..|e.records[i]|] == ciphertext;
      ForgedRecordIsNot(e, i, ciphertext);
    }
  }

  /** Prefixes of different length differ, so the bytes fed tell how many records they hold. */
  lemma PrefixesGrow(e: Envelope, i: nat, j: nat)
    requires Sealed(e) && i < j <= |e.records|
    ensures |Upto(e, i)| + |e.records[i]| <= |Upto(e, j)|
  {
    NextRecord(e, i);
    RecordsPrefix(e, i + 1, j);
  }

  lemma StandsAt(e: Envelope, k: nat, c: nat, rest: Bytes)
    requires Sealed(e) && k <= |e.records| && c <= |e.records|
    requires Upto(e, k) == Upto(e, c) + rest
    requires c < |e.records| ==> |rest| < |e.records[c]|
    ensures c == k && rest == []
  {
    if c < k { PrefixesGrow(e, c, k); }
    if k < c {
      RecordSize(e, k);
      PrefixesGrow(e, k, c);
    }
  }

  lemma NotYetSealed(e: Envelope, k: nat)
    requires Sealed(e) && k <= |e.records|
    ensures Upto(e, k) != Sealing(e)
  {
    RecordsPrefix(e, k, |e.records|);
  }

  lemma ReaderStandsAt(e: Envelope, k: nat, reader: DecryptReader)
    requires reader.e == e && reader.Valid() && k <= |e.records| && reader.fed == Upto(e, k)
    ensures reader.position == Min(Lo(e, k), |e.plain|)
  {
    NotYetSealed(e, k);
    StandsAt(e, k, reader.chunkIndex, reader.buffer);
  }

  /** Decrypt record `i`: through the stateful decoder for a whole file, on its own otherwise. */
  method OpenNext(e: Envelope, f: Fetch, i: nat, ciphertext: Bytes, reader: DecryptReader) returns (plaintext: Option<Bytes>)
    requires Sealed(e) && i < |e.records| && |ciphertext| == |e.records[i]|
    requires f.wholeFile ==> reader.e == e && reader.Valid() && reader.fed == Upto(e, i)
    modifies reader
    ensures plaintext.Some? <==> ciphertext == e.records[i]
    ensures plaintext.Some? ==> Lo(e, i) <= Hi(e, i) <= |e.plain| && plaintext.value == e.plain[Lo(e, i)..Hi(e, i)]
    ensures f.wholeFile && plaintext.Some? ==> reader.e == e && reader.Valid() && reader.fed == Upto(e, i + 1)
  {
    RecordSize(e, i);
    if f.wholeFile {
      OneRecord(e, i, ciphertext);
      NextRecord(e, i);
      ReaderStandsAt(e, i, reader);
      plaintext := reader.Feed(ciphertext);
      if plaintext.Some? { ReaderStandsAt(e, i + 1, reader); }
    } else {
      plaintext := DecryptChunkAt(e, i, ciphertext);
    }
  }

  /** Verify everything that follows the last record. */
  method OpenTail(e: Envelope, tail: Bytes, reader: DecryptReader) returns (ok: bool)
    requires reader.e == e && reader.Valid() && reader.fed == Upto(e, |e.records|)
    modifies reader
    ensures ok <==> tail == e.final
    ensures ok ==> reader.verified
  {
    AfterTheRecords(e, tail);
    var plaintext := reader.Feed(tail);
    if plaintext.None? { return false; }
    SealingCancels(e, tail);
    ok := reader.Finish();
  }

  lemma SealingCancels(e: Envelope, tail: Bytes)
    ensures Upto(e, |e.records|) + tail == Sealing(e) <==> tail == e.final
  {
    assert (Upto(e, |e.records|) + tail)[|Upto(e, |e.records|)|..] == tail;
    assert Sealing(e)[|Upto(e, |e.records|)|..] == e.final;
  }

  // ------------------------------------------------------------------ the stream

  /** The download up to item `next` is records `first..i` and then the buffer. */
  predicate Consumed(e: Envelope, first: nat, i: nat, download: Source, next: nat, buffer: Bytes)
    requires first <= i <= |e.records|
  {
    Readable(download, next) && Received(download, next) == Run(e.records, first, i) + buffer
  }

  lemma ConsumedPull(e: Envelope, first: nat, i: nat, download: Source, next: nat, buffer: Bytes, next': nat, buffer': Bytes, added: Bytes)
    requires first <= i <= |e.records| && Consumed(e, first, i, download, next, buffer)
    requires next <= next' <= CleanItems(download) && buffer' == buffer + added
    requires Received(download, next') == Received(download, next) + added
    ensures Consumed(e, first, i, download, next', buffer')
  {
  }

  /** When record `i` cannot be completed or is not genuine, the download was not the range's ciphertext. */
  lemma RecordMissing(e: Envelope, f: Fetch, i: nat, download: Source, next: nat, buffer: Bytes, short: bool)
    requires f.first <= i <= f.last < |e.records| && Consumed(e, f.first, i, download, next, buffer)
    requires if short then |buffer| < |e.records[i]| && next == CleanItems(download)
             else |e.records[i]| <= |buffer| && buffer[..|e.records[i]|] != e.records[i]
    ensures Delivered(download) != RangeCipher(e, f.first, f.last, f.wholeFile)
  {
    DeliveredPrefix(download, next, CleanItems(download));
    var more := Delivered(download)[|Received(download, next)|..];
    assert Delivered(download) == Run(e.records, f.first, i) + buffer + more;
    WrongRecord(e, f, i, buffer, more);
  }

  lemma RecordTaken(e: Envelope, first: nat, i: nat, download: Source, next: nat, buffer: Bytes, rest: Bytes)
    requires first <= i < |e.records| && Consumed(e, first, i, download, next, buffer) && buffer == e.records[i] + rest
    ensures Consumed(e, first, i + 1, download, next, rest)
  {
  }

  /** Once the last record is taken, what is buffered and what is still to come decide the rest. */
  lemma TailDecides(e: Envelope, f: Fetch, download: Source, next: nat, buffer: Bytes)
    requires f.first <= f.last < |e.records| && Consumed(e, f.first, f.last + 1, download, next, buffer)
    requires |Delivered(download)| <= |RangeCipher(e, f.first, f.last, f.wholeFile)|
    requires next == CleanItems(download) || |buffer| >= if f.wholeFile then |e.final| else 0
    ensures Delivered(download) == RangeCipher(e, f.first, f.last, f.wholeFile) <==> buffer == if f.wholeFile then e.final else []
    ensures |buffer| <= if f.wholeFile then |e.final| else 0
  {
    DeliveredPrefix(download, next, CleanItems(download));
    assert next == CleanItems(download) ==> Delivered(download) == Received(download, next);
    SameTail(Run(e.records, f.first, f.last + 1), buffer, if f.wholeFile then e.final else [], Delivered(download));
  }

  lemma SameTail(front: Bytes, buffer: Bytes, tail: Bytes, delivered: Bytes)
    requires front + buffer <= delivered && |delivered| <= |front + tail|
    requires delivered == front + buffer || |buffer| >= |tail|
    ensures delivered == front + tail <==> buffer == tail
    ensures |buffer| <= |tail|
  {
    assert delivered == front + buffer;
    assert (front + buffer)[|front|..] == buffer;
    assert (front + tail)[|front|..] == tail;
  }

  /** What a plan says about its record `i`. */
  lemma CoversRecord(e: Envelope, f: Fetch, start: nat, end: nat, i: nat, download: Source, next: nat, buffer: Bytes)
    requires Covers(e, f, start, end) && f.first <= i <= f.last && Consumed(e, f.first, i, download, next, buffer)
    ensures Sealed(e) && start <= end < |e.plain| && f.first <= f.last < |e.records| && Readable(download, next)
    ensures f.length == |RangeCipher(e, f.first, f.last, f.wholeFile)|
    ensures f.wholeFile ==> f.last == |e.records| - 1
    ensures e.chunkSize > 0 && Lo(e, i) == i * e.chunkSize < |e.plain|
    ensures |e.records[i]| == Min(|e.plain| - i * e.chunkSize, e.chunkSize) + AEAD_TAG_LENGTH
  {
    RecordSize(e, i);
    LoIsProduct(e, i);
  }

  /** Read, authenticate and cut record `i`. */
  method StreamRecord(e: Envelope, f: Fetch, start: nat, end: nat, i: nat, download: Source, next: nat, buffer: Bytes, reader: DecryptReader)
    returns (piece: Option<Bytes>, next': nat, buffer': Bytes)
    requires Covers(e, f, start, end) && f.first <= i <= f.last && Consumed(e, f.first, i, download, next, buffer)
    requires f.wholeFile ==> reader.e == e && reader.Valid() && reader.fed == Upto(e, i)
    modifies reader
    ensures piece.Some? ==> Consumed(e, f.first, i + 1, download, next', buffer')
    ensures piece.None? ==> Delivered(download) != RangeCipher(e, f.first, f.last, f.wholeFile)
    ensures piece.Some? ==>
              && start <= Reached(e, start, end, i) <= Reached(e, start, end, i + 1) <= end + 1
              && e.plain[start..Reached(e, start, end, i)] + piece.value == e.plain[start..Reached(e, start, end, i + 1)]
    ensures f.wholeFile && piece.Some? ==> reader.e == e && reader.Valid() && reader.fed == Upto(e, i + 1)
  {
    hide *;
    CoversRecord(e, f, start, end, i, download, next, buffer);
    var plaintextOffset := i * e.chunkSize;
    var plaintextLength := Min(|e.plain| - plaintextOffset, e.chunkSize);
    var required := plaintextLength + AEAD_TAG_LENGTH;
    ghost var added;
    var ok;
    ok, next', buffer', added := Pull(download, next, buffer, required);
    ConsumedPull(e, f.first, i, download, next, buffer, next', buffer', added);
    if !ok {
      RecordMissing(e, f, i, download, next', buffer', true);
      return None, next', buffer';
    }
    ghost var before := buffer';
    var ciphertext := buffer'[..required];
    buffer' := buffer'[required..];
    var plaintext := OpenNext(e, f, i, ciphertext, reader);
    if plaintext.None? {
      RecordMissing(e, f, i, download, next', before, false);
      return None, next', buffer';
    }
    assert before == ciphertext + buffer';
    RecordTaken(e, f.first, i, download, next', before, buffer');
    PortionAdvances(e, start, end, f, i);
    piece := Some(Portion(plaintextOffset, start, end, plaintext.value));
  }

  /** After the last record of a whole file: read the final record and verify it. */
  method VerifyEnd(e: Envelope, f: Fetch, download: Source, next: nat, buffer: Bytes, reader: DecryptReader) returns (ok: bool)
    requires Sealed(e) && f.first <= f.last == |e.records| - 1 && f.wholeFile
    requires Consumed(e, f.first, f.last + 1, download, next, buffer)
    requires |Delivered(download)| <= |RangeCipher(e, f.first, f.last, f.wholeFile)|
    requires reader.e == e && reader.Valid() && reader.fed == Upto(e, |e.records|)
    modifies reader
    ensures ok <==> Delivered(download) == RangeCipher(e, f.first, f.last, f.wholeFile)
    ensures ok ==> reader.verified
  {
    ghost var added;
    var next', buffer';
    ok, next', buffer', added := Pull(download, next, buffer, FINAL_RECORD_SIZE);
    TailDecides(e, f, download, next', buffer');
    if !ok { return; }
    ok := OpenTail(e, buffer', reader);
  }

  /** One turn of the stream's loop: a record, and at the end of a whole file its verification. */
  method StreamTurn(e: Envelope, f: Fetch, start: nat, end: nat, i: nat, download: Source, next: nat, buffer: Bytes, reader: DecryptReader)
    returns (piece: Option<Bytes>, next': nat, buffer': Bytes)
    requires Covers(e, f, start, end) && f.first <= i <= f.last && Consumed(e, f.first, i, download, next, buffer)
    requires |Delivered(download)| <= f.length
    requires f.wholeFile ==> reader.e == e && reader.Valid() && reader.fed == Upto(e, i)
    modifies reader
    ensures piece.Some? ==> Consumed(e, f.first, i + 1, download, next', buffer')
    ensures piece.None? ==> Delivered(download) != RangeCipher(e, f.first, f.last, f.wholeFile)
    ensures piece.Some? ==>
              && start <= Reached(e, start, end, i) <= Reached(e, start, end, i + 1) <= end + 1
              && e.plain[start..Reached(e, start, end, i)] + piece.value == e.plain[start..Reached(e, start, end, i + 1)]
    ensures f.wholeFile && i < f.last && piece.Some? ==> reader.e == e && reader.Valid() && reader.fed == Upto(e, i + 1)
    ensures f.wholeFile && i == f.last && piece.Some? ==> Delivered(download) == RangeCipher(e, f.first, f.last, f.wholeFile)
  {
    piece, next', buffer' := StreamRecord(e, f, start, end, i, download, next, buffer, reader);
    if piece.Some? && f.wholeFile && i == f.last {
      var verified := VerifyEnd(e, f, download, next', buffer', reader);
      if !verified { piece := None; }
    }
  }

  /** The output so far is the requested plaintext up to record `i`. */
  predicate SentUpto(e: Envelope, start: nat, end: nat, i: nat, chunks: seq<Bytes>)
    requires start <= end < |e.plain|
  {
    && start <= Reached(e, start, end, i) <= end + 1
    && Flatten(chunks) == e.plain[start..Reached(e, start, end, i)]
  }

  lemma SendMore(e: Envelope, start: nat, end: nat, i: nat, chunks: seq<Bytes>, piece: Bytes)
    requires start <= end < |e.plain| && SentUpto(e, start, end, i, chunks)
    requires start <= Reached(e, start, end, i) <= Reached(e, start, end, i + 1) <= end + 1
    requires e.plain[start..Reached(e, start, end, i)] + piece == e.plain[start..Reached(e, start, end, i + 1)]
    ensures SentUpto(e, start, end, i + 1, chunks + [piece])
  {
    FlattenSnoc(chunks, piece);
  }

  lemma SentIsPrefix(e: Envelope, start: nat, end: nat, i: nat, chunks: seq<Bytes>)
    requires start <= end < |e.plain| && SentUpto(e, start, end, i, chunks)
    ensures Flatten(chunks) <= e.plain[start..end + 1]
  {
  }

  /** Where the stream starts. */
  lemma StreamStarts(e: Envelope, f: Fetch, start: nat, end: nat, download: Source)
    requires Covers(e, f, start, end)
    ensures start <= end < |e.plain| && f.first <= f.last < |e.records| && f.length == |RangeCipher(e, f.first, f.last, f.wholeFile)|
    ensures f.wholeFile ==> f.first == 0 && f.last == |e.records| - 1 && Upto(e, 0) == []
    ensures Consumed(e, f.first, f.first, download, 0, []) && SentUpto(e, start, end, f.first, [])
    ensures Sealed(e)
  {
    CleanItemsIsMaximal(download);
    RangeEnds(e, start, end, f);
  }

  /** What has been sent once the last record is. */
  lemma StreamEnds(e: Envelope, f: Fetch, start: nat, end: nat, download: Source, next: nat, buffer: Bytes, chunks: seq<Bytes>)
    requires Covers(e, f, start, end) && |Delivered(download)| <= f.length
    requires Consumed(e, f.first, f.last + 1, download, next, buffer) && SentUpto(e, start, end, f.last + 1, chunks)
    ensures Flatten(chunks) == e.plain[start..end + 1]
    ensures !f.wholeFile ==> Delivered(download) == RangeCipher(e, f.first, f.last, f.wholeFile)
  {
    RangeEnds(e, start, end, f);
    if !f.wholeFile { TailDecides(e, f, download, next, buffer); }
  }

  /**
    The protected stream over any fragmentation of the download. It ends normally exactly when the
    download is the genuine ciphertext of the range; its output is then exactly the requested plaintext,
    and never anything but a prefix of it. The last record of a whole-file read is only passed on once
    the final record is verified.
  */
  method EncryptedChunks(e: Envelope, f: Fetch, start: nat, end: nat, download: Source) returns (body: Body)
    requires Covers(e, f, start, end)
    requires |Delivered(download)| <= f.length
    ensures body.complete <==> Delivered(download) == RangeCipher(e, f.first, f.last, f.wholeFile)
    ensures Flatten(body.chunks) <= e.plain[start..end + 1]
    ensures body.complete ==> Flatten(body.chunks) == e.plain[start..end + 1]
    ensures |body.chunks| <= f.last - f.first + 1
    ensures f.wholeFile && |body.chunks| == f.last - f.first + 1 ==> body.complete
  {
    hide *;
    StreamStarts(e, f, start, end, download);
    var reader := new DecryptReader(e);
    var chunks: seq<Bytes> := [];
    var next, buffer: Bytes := 0, [];
    for i := f.first to f.last + 1
      invariant Consumed(e, f.first, i, download, next, buffer)
      invariant |chunks| == i - f.first
      invariant SentUpto(e, start, end, i, chunks)
      invariant fresh(reader)
      invariant f.wholeFile && i <= f.last ==> reader.e == e && reader.Valid() && reader.fed == Upto(e, i)
      invariant f.wholeFile && i == f.last + 1 ==> Delivered(download) == RangeCipher(e, f.first, f.last, f.wholeFile)
    {
      SentIsPrefix(e, start, end, i, chunks);
      var piece;
      piece, next, buffer := StreamTurn(e, f, start, end, i, download, next, buffer, reader);
      if piece.None? {
        return Body(chunks, false);
      }
      SendMore(e, start, end, i, chunks, piece.value);
      chunks := chunks + [piece.value];
    }
    StreamEnds(e, f, start, end, download, next, buffer, chunks);
    body := Body(chunks, true);
  }

  // ------------------------------------------------------------------ downloads and guards

  /** A body read as a source: its chunks, then the error that cut it off, if one did. */
  function AsSource(body: Body): (source: Source)
    ensures |source| == |body.chunks| + (if body.complete then 0 else 1)
    ensures forall i :: 0 <= i < |body.chunks| ==> source[i] == Chunk(body.chunks[i])
    ensures !body.complete ==> source[|body.chunks|].Failure?
  {
    seq(|body.chunks|, i requires 0 <= i < |body.chunks| => Chunk(body.chunks[i])) + if body.complete then [] else [Failure]
  }

  lemma {:induction false} ReceivedIsRun(body: Body, count: nat)
    requires count <= |body.chunks|
    ensures Received(AsSource(body), count) == Run(body.chunks, 0, count)
  {
    if count > 0 { ReceivedIsRun(body, count - 1); }
  }

  lemma BodyDelivers(body: Body)
    ensures Delivered(AsSource(body)) == Flatten(body.chunks)
  {
    var source := AsSource(body);
    var n := |body.chunks|;
    CleanItemsIs(source, n);
    ReceivedIsRun(body, n);
    RunOfAll(body.chunks, n);
    assert body.chunks[..n] == body.chunks;
  }

  /** `after` carries the bytes of `before`, in order and cut off by an error somewhere or not at all, in small pieces. */
  predicate SmallPieces(before: Body, after: Body) {
    && Flatten(after.chunks) <= Flatten(before.chunks)
    && (after.complete ==> before.complete && Flatten(after.chunks) == Flatten(before.chunks))
    && AllSmall(after.chunks)
  }

  predicate AllSmall(pieces: seq<Bytes>) {
    forall i :: 0 <= i < |pieces| ==> 0 < |pieces[i]| <= DELIVERY_LIMIT
  }

  /** Deliver one chunk in small pieces, or be refused part of the way through. */
  method DeliverChunk(pieces: seq<Bytes>, bytes: Bytes) returns (delivered: seq<Bytes>, refused: bool)
    requires AllSmall(pieces)
    ensures AllSmall(delivered) && Flatten(delivered) <= Flatten(pieces) + bytes
    ensures !refused ==> Flatten(delivered) == Flatten(pieces) + bytes
  {
    delivered, refused := pieces, false;
    var offset := 0;
    while offset < |bytes|
      invariant offset <= |bytes| && AllSmall(delivered)
      invariant Flatten(delivered) == Flatten(pieces) + bytes[..offset]
    {
      if * { return delivered, true; }
      var end := Min(offset + DELIVERY_LIMIT, |bytes|);
      FlattenSnoc(delivered, bytes[offset..end]);
      JoinSlices(bytes, offset, end);
      delivered := delivered + [bytes[offset..end]];
      offset := end;
    }
  }

  /** Re-chunk for delivery, validating the credential and pacing before every piece. */
  method GuardProtectedChunks(body: Body) returns (guarded: Body, ghost refused: bool)
    ensures SmallPieces(body, guarded)
    ensures if refused then !guarded.complete else guarded.complete == body.complete && Flatten(guarded.chunks) == Flatten(body.chunks)
  {
    var pieces: seq<Bytes> := [];
    for i := 0 to |body.chunks|
      invariant Flatten(pieces) == Run(body.chunks, 0, i) && AllSmall(pieces)
    {
      BodyUpTo(body.chunks, i);
      if * { return Body(pieces, false), true; }
      var turnedAway;
      pieces, turnedAway := DeliverChunk(pieces, body.chunks[i]);
      if turnedAway { return Body(pieces, false), true; }
    }
    BodyUpTo(body.chunks, |body.chunks|);
    if * { return Body(pieces, false), true; }
    guarded, refused := Body(pieces, body.complete), false;
  }

  lemma BodyUpTo(chunks: seq<Bytes>, i: nat)
    requires i <= |chunks|
    ensures Run(chunks, 0, i) <= Flatten(chunks)
    ensures i < |chunks| ==> Run(chunks, 0, i) + chunks[i] <= Flatten(chunks)
    ensures i == |chunks| ==> Run(chunks, 0, i) == Flatten(chunks)
  {
    RunOfAll(chunks, |chunks|);
    assert chunks[..|chunks|] == chunks;
    RunSplit(chunks, 0, i, |chunks|);
    if i < |chunks| { RunSplit(chunks, 0, i + 1, |chunks|); }
  }

  // ------------------------------------------------------------------ the response

  datatype Reply =
    | Gone
    | OutOfRange(size: nat)
    | Unprocessable
    | Locked
    | TooMany
    | Served(partial: bool, first: nat, last: nat, size: nat, body: Body, committed: bool)

  /** The ciphertext window a plan asks for, as far as the source delivers it. */
  function FetchedWindow(f: Fetch, source: Source): Bytes {
    Window(Delivered(source), f.bodyStart % CDN_ALIGNMENT, f.length)
  }

  /** What was fetched for the range is exactly the ciphertext that was sealed there. */
  predicate Genuine(e: Envelope, start: nat, end: nat, sources: nat -> Source)
    requires Sealed(e) && start <= end < |e.plain|
  {
    FetchCoversRange(e, start, end);
    var f := PlanFetch(e, start, end).value;
    FetchedWindow(f, sources(f.bodyStart)) == RangeCipher(e, f.first, f.last, f.wholeFile)
  }

  /** The plan of a range, and when what the source delivers for it is genuine. */
  lemma RangePlanned(e: Envelope, start: nat, end: nat, sources: nat -> Source)
    requires Sealed(e) && start <= end < |e.plain|
    ensures e.chunkSize > 0 && PlanFetch(e, start, end).Some? && end - start + 1 < U64_MAX && CDN_ALIGNMENT > 0
    ensures var f := PlanFetch(e, start, end).value;
            var fetched := Window(Delivered(sources(f.bodyStart)), f.bodyStart % CDN_ALIGNMENT, f.length);
            && f.first <= f.last < |e.records| && Covers(e, f, start, end) && |fetched| <= f.length
            && (Genuine(e, start, end, sources) <==> fetched == RangeCipher(e, f.first, f.last, f.wholeFile))
  {
    FetchCoversRange(e, start, end);
  }

  lemma PlainServes(body: Body, plain: Bytes, start: nat, end: nat)
    requires start <= end < |plain| && Flatten(body.chunks) <= plain[start..end + 1]
    requires body.complete ==> Flatten(body.chunks) == plain[start..end + 1]
    ensures Serves(body, plain, start, end - start + 1)
  {
  }

  lemma PiecesServe(before: Body, after: Body, file: Bytes, start: nat, length: nat)
    requires start + length <= |file| && Serves(before, file, start, length) && SmallPieces(before, after)
    ensures Serves(after, file, start, length) && AllSmall(after.chunks)
    ensures after.complete ==> before.complete && |Flatten(after.chunks)| == length
  {
  }

  /** Decrypt, guard, re-chunk and account for one range. */
  method ServeRange(e: Envelope, start: nat, end: nat, sources: nat -> Source) returns (body: Body, committed: bool, ghost refused: bool)
    requires Sealed(e) && start <= end < |e.plain|
    ensures Serves(body, e.plain, start, end - start + 1)
    ensures committed <==> body.complete
    ensures body.complete <==> !refused && Genuine(e, start, end, sources)
    ensures AllSmall(body.chunks)
  {
    hide *;
    RangePlanned(e, start, end, sources);
    var f := PlanFetch(e, start, end).value;
    var download := SliceMediaChunks(sources(f.bodyStart), f.bodyStart % CDN_ALIGNMENT, f.length);
    BodyDelivers(download);
    var stream := EncryptedChunks(e, f, start, end, AsSource(download));
    ghost var guardRefused, protectRefused;
    var guarded;
    guarded, guardRefused := GuardMediaChunks(stream);
    PlainServes(stream, e.plain, start, end);
    CutOffServes(stream, guarded, e.plain, start, end - start + 1);
    body, protectRefused := GuardProtectedChunks(guarded);
    PiecesServe(guarded, body, e.plain, start, end - start + 1);
    refused := guardRefused || protectRefused;
    committed := QuotaMediaChunks(body, end - start + 1);
  }

  /**
    Serving a range of an encrypted file, whatever the header claims and whatever the source delivers.
    A body that ends normally is exactly the requested plaintext; unless access is withdrawn it ends
    normally exactly when the fetched ciphertext is genuine.
    `parsed` is the outcome of parsing the stored header, `unlocked` whether the credential opens it.
  */
  method BuildEncryptedMediaResponse(plaintextSize: nat, header: Option<string>, accountValid: bool, parsed: Option<Envelope>,
                                     unlocked: bool, admitted: bool, sources: nat -> Source)
    returns (response: Reply, ghost refused: bool)
    requires parsed.Some? ==> Sealed(parsed.value)
    ensures response.Gone? <==> !accountValid
    ensures accountValid ==> (response.OutOfRange? <==> SelectRange(header, plaintextSize).Unsatisfiable?)
    ensures response.Served? || response.Locked? || response.TooMany? ==> parsed.Some? && |parsed.value.plain| == plaintextSize
    ensures response.Served? || response.TooMany? ==> unlocked
    ensures response.Served? ==>
              && admitted && plaintextSize > 0 && response.size == plaintextSize
              && SelectRange(header, plaintextSize) == (if response.partial then Partial(response.first, response.last) else Full)
              && (!response.partial ==> response.first == 0 && response.last == plaintextSize - 1)
              && response.first <= response.last < plaintextSize
              && Serves(response.body, parsed.value.plain, response.first, response.last - response.first + 1)
              && (response.committed <==> response.body.complete)
              && (response.body.complete <==> !refused && Genuine(parsed.value, response.first, response.last, sources))
    ensures response.Served? <==>
              && accountValid && !SelectRange(header, plaintextSize).Unsatisfiable?
              && parsed.Some? && |parsed.value.plain| == plaintextSize && unlocked && admitted
  {
    refused := false;
    if !accountValid { return Gone, false; }
    var start, end, isRange;
    match SelectRange(header, plaintextSize) {
      case Full => start, end, isRange := 0, if plaintextSize == 0 then 0 else plaintextSize - 1, false;
      case Partial(a, b) => start, end, isRange := a, b, true;
      case Unsatisfiable => return OutOfRange(plaintextSize), false;
    }
    PartialIsInside(header, plaintextSize);
    if plaintextSize == 0 || parsed.None? { return Unprocessable, false; }
    var e := parsed.value;
    if |e.plain| != plaintextSize { return Unprocessable, false; }
    if !unlocked { return Locked, false; }
    if !admitted { return TooMany, false; }
    var body, committed;
    body, committed, refused := ServeRange(e, start, end, sources);
    response := Served(isRange, start, end, plaintextSize, body, committed);
  }

  /** An honest source that reaches far enough always fetches genuine ciphertext, whatever its chunking. */
  lemma HonestSourceIsGenuine(e: Envelope, start: nat, end: nat, sources: nat -> Source)
    requires Sealed(e) && start <= end < |e.plain|
    requires var f := PlanFetch(e, start, end);
             f.Some? ==> DeliversFrom(sources(f.value.bodyStart), File(e), f.value.bodyStart)
                         && Enough(sources(f.value.bodyStart), f.value.bodyStart, f.value.length)
    ensures Genuine(e, start, end, sources)
  {
    FetchCoversRange(e, start, end);
    var f := PlanFetch(e, start, end).value;
    RecordSize(e, f.first);
    WindowOfAligned(sources(f.bodyStart), File(e), f.bodyStart, f.length);
  }
}

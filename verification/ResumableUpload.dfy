/**
  Uploads that continue where they stopped (app/src-tauri/src/resumable_upload.rs).

  One `Uploader` is one record key: the durable session record, and the parts the sink has
  accepted under any file identifier. An attempt may be cut off at every point by `if *`:
  a crash, a failing store or a failing source. Requests that are still in flight when an
  attempt ends are delivered or lost before the next one starts.
*/
module ResumableUpload {
  import opened Common

  const PART_BYTES := 524288
  const WORKERS := 4
  const SESSION_MAX_AGE_SECS := 43200
  const RACY_SOURCE_WINDOW_SECS := 2
  const NANOS := 1_000_000_000
  const I32_MAX := 0x7fff_ffff

  /** SHA-256 taken as collision free: equal digests have equal preimages. */
  datatype Digest = Sha256(preimage: Bytes)

  datatype Fingerprint = Fingerprint(bytes: nat, modifiedNs: Option<int>)

  datatype Session = Session(
    fileId: int,
    totalBytes: nat,
    totalParts: int,
    completedParts: int,
    prefix: Digest,
    source: Fingerprint,
    remoteName: string,
    envelopeHeader: Option<Bytes>,
    createdAt: int,
    updatedAt: int)

  datatype Outcome =
    | Uploaded(fileId: int, totalParts: int, name: string, resumedParts: int)
    | Stale
    | Failed
    | Interrupted

  /** What the sink holds: the bytes last accepted for a part of a file. */
  type Parts = map<(int, int), Bytes>

  // ------------------------------------------------------------------ part arithmetic

  function PartCount(totalBytes: nat): nat {
    (totalBytes + PART_BYTES - 1) / PART_BYTES
  }

  function PartLength(part: nat, totalBytes: nat): int {
    if part + 1 < PartCount(totalBytes) then PART_BYTES
    else totalBytes - (PartCount(totalBytes) - 1) * PART_BYTES
  }

  /** Where a part starts in the stream. */
  function Offset(part: nat, totalBytes: nat): nat {
    Min(part * PART_BYTES, totalBytes)
  }

  function LengthSum(parts: nat, totalBytes: nat): int {
    if parts == 0 then 0 else LengthSum(parts - 1, totalBytes) + PartLength(parts - 1, totalBytes)
  }

  lemma PartBounds(part: nat, totalBytes: nat)
    requires totalBytes > 0 && part < PartCount(totalBytes)
    ensures 0 < PartLength(part, totalBytes) <= PART_BYTES
    ensures Offset(part + 1, totalBytes) == Offset(part, totalBytes) + PartLength(part, totalBytes)
  {
  }

  lemma {:induction false} LengthsReachOffset(parts: nat, totalBytes: nat)
    requires totalBytes > 0 && parts <= PartCount(totalBytes)
    ensures LengthSum(parts, totalBytes) == Offset(parts, totalBytes)
  {
    if parts > 0 {
      LengthsReachOffset(parts - 1, totalBytes);
      PartBounds(parts - 1, totalBytes);
    }
  }

  /** The parts of a non-empty upload are positive, bounded, and add up to exactly its length. */
  lemma PartsTile(totalBytes: nat)
    requires totalBytes > 0
    ensures PartCount(totalBytes) > 0
    ensures forall p: nat :: p < PartCount(totalBytes) ==> 0 < PartLength(p, totalBytes) <= PART_BYTES
    ensures LengthSum(PartCount(totalBytes), totalBytes) == totalBytes
    ensures Offset(PartCount(totalBytes), totalBytes) == totalBytes
  {
    LengthsReachOffset(PartCount(totalBytes), totalBytes);
  }

  // ------------------------------------------------------------------ the sink

  /** The file the sink would build from parts `0..count`. */
  function Assembled(parts: Parts, fileId: int, count: nat): Bytes {
    if count == 0 then []
    else
      var last := if (fileId, count - 1) in parts then parts[(fileId, count - 1)] else [];
      Assembled(parts, fileId, count - 1) + last
  }

  lemma {:induction false} AssembledFrame(a: Parts, b: Parts, fileId: int, count: nat)
    requires forall p :: 0 <= p < count ==> ((fileId, p) in a <==> (fileId, p) in b)
    requires forall p :: 0 <= p < count && (fileId, p) in a ==> a[(fileId, p)] == b[(fileId, p)]
    ensures Assembled(a, fileId, count) == Assembled(b, fileId, count)
  {
    if count > 0 {
      AssembledFrame(a, b, fileId, count - 1);
    }
  }

  /** Part `p` of the stream; cut short where the stream ends early. */
  function Piece(stream: Bytes, p: nat, totalBytes: nat): Bytes {
    stream[Min(Offset(p, totalBytes), |stream|)..Min(Offset(p + 1, totalBytes), |stream|)]
  }

  /** The first `count` parts of the stream. */
  function PiecesUpTo(stream: Bytes, totalBytes: nat, count: nat): (pieces: seq<Bytes>)
    ensures |pieces| == count
  {
    if count == 0 then [] else PiecesUpTo(stream, totalBytes, count - 1) + [Piece(stream, count - 1, totalBytes)]
  }

  function Pieces(stream: Bytes, totalBytes: nat): (pieces: seq<Bytes>)
    ensures |pieces| == PartCount(totalBytes)
  {
    PiecesUpTo(stream, totalBytes, PartCount(totalBytes))
  }

  lemma {:induction false} PieceAt(stream: Bytes, totalBytes: nat, count: nat, p: nat)
    requires p < count
    ensures PiecesUpTo(stream, totalBytes, count)[p] == Piece(stream, p, totalBytes)
  {
    if p < count - 1 {
      PieceAt(stream, totalBytes, count - 1, p);
    }
  }

  lemma {:induction false} PiecesJoin(stream: Bytes, totalBytes: nat, count: nat)
    requires count <= PartCount(totalBytes) && Offset(count, totalBytes) <= |stream|
    ensures Flatten(Pieces(stream, totalBytes)[..count]) == stream[..Offset(count, totalBytes)]
  {
    var pieces := Pieces(stream, totalBytes);
    if count > 0 {
      PiecesJoin(stream, totalBytes, count - 1);
      PieceAt(stream, totalBytes, PartCount(totalBytes), count - 1);
      assert pieces[..count] == pieces[..count - 1] + [pieces[count - 1]];
      FlattenSnoc(pieces[..count - 1], pieces[count - 1]);
    }
  }

  lemma PieceLength(stream: Bytes, totalBytes: nat, p: nat)
    requires totalBytes > 0 && p < PartCount(totalBytes) && Offset(p + 1, totalBytes) <= |stream|
    ensures |Piece(stream, p, totalBytes)| == PartLength(p, totalBytes)
  {
    PartBounds(p, totalBytes);
  }

  /** The sink holds exactly `pieces[p]` as part `p`. */
  predicate Holds(parts: Parts, fileId: int, p: nat, pieces: seq<Bytes>) {
    (fileId, p) in parts && p < |pieces| && parts[(fileId, p)] == pieces[p]
  }

  predicate HoldsAll(parts: Parts, fileId: int, count: nat, pieces: seq<Bytes>) {
    forall p: nat :: p < count ==> Holds(parts, fileId, p, pieces)
  }

  lemma PiecesAreWhole(stream: Bytes, totalBytes: nat, count: nat)
    requires totalBytes > 0 && count <= PartCount(totalBytes) && Offset(count, totalBytes) <= |stream|
    ensures Whole(Pieces(stream, totalBytes), count, totalBytes)
  {
    forall p: nat | p < count ensures |Pieces(stream, totalBytes)[p]| == PartLength(p, totalBytes) {
      PieceLength(stream, totalBytes, p);
      PieceAt(stream, totalBytes, PartCount(totalBytes), p);
    }
  }

  /** The reader stands after `next` whole parts, whose bytes are `sentBytes`. */
  predicate ReadUpTo(stream: Bytes, totalBytes: nat, next: nat, position: nat, sentBytes: Bytes) {
    && position == Offset(next, totalBytes) <= |stream|
    && next <= PartCount(totalBytes)
    && sentBytes == Flatten(Pieces(stream, totalBytes)[..next])
  }

  /** The first `count` pieces are whole: none was cut short. */
  predicate Whole(pieces: seq<Bytes>, count: nat, totalBytes: nat) {
    count <= |pieces| && forall p: nat :: p < count ==> |pieces[p]| == PartLength(p, totalBytes)
  }

  /** A session tells the truth about the sink: every part below `completedParts` was accepted,
      and the digest is that of exactly those parts in order. */
  ghost predicate Truthful(parts: Parts, s: Session) {
    && s.totalBytes > 0
    && s.totalParts == PartCount(s.totalBytes)
    && 0 <= s.completedParts <= s.totalParts
    && (forall p: nat :: p < s.completedParts ==>
          (s.fileId, p) in parts && |parts[(s.fileId, p)]| == PartLength(p, s.totalBytes))
    && s.prefix == Sha256(Assembled(parts, s.fileId, s.completedParts))
  }

  lemma SameLastPart(front: Bytes, last: Bytes, front': Bytes, last': Bytes)
    requires |last| == |last'| && front + last == front' + last'
    ensures front == front' && last == last'
  {
    assert last == (front + last)[|front|..] == (front' + last')[|front'|..] == last';
    assert front == (front + last)[..|front|] == (front' + last')[..|front'|] == front';
  }

  /** Parts of the right lengths that concatenate to the pieces are the pieces, one by one. */
  lemma {:induction false} AssembledSplits(parts: Parts, fileId: int, count: nat, pieces: seq<Bytes>, totalBytes: nat)
    requires Whole(pieces, count, totalBytes)
    requires forall p: nat :: p < count ==> (fileId, p) in parts && |parts[(fileId, p)]| == PartLength(p, totalBytes)
    requires Assembled(parts, fileId, count) == Flatten(pieces[..count])
    ensures HoldsAll(parts, fileId, count, pieces)
  {
    if count > 0 {
      var k := count - 1;
      assert pieces[..count] == pieces[..k] + [pieces[k]];
      FlattenSnoc(pieces[..k], pieces[k]);
      SameLastPart(Assembled(parts, fileId, k), parts[(fileId, k)], Flatten(pieces[..k]), pieces[k]);
      AssembledSplits(parts, fileId, k, pieces, totalBytes);
    }
  }

  lemma {:induction false} HoldsAllAssembles(parts: Parts, fileId: int, count: nat, pieces: seq<Bytes>)
    requires count <= |pieces| && HoldsAll(parts, fileId, count, pieces)
    ensures Assembled(parts, fileId, count) == Flatten(pieces[..count])
  {
    if count > 0 {
      assert Holds(parts, fileId, count - 1, pieces);
      assert pieces[..count] == pieces[..count - 1] + [pieces[count - 1]];
      FlattenSnoc(pieces[..count - 1], pieces[count - 1]);
      HoldsAllAssembles(parts, fileId, count - 1, pieces);
    }
  }

  /** Resuming is safe: a truthful record whose digest is that of the current pieces names parts
      that are, one by one, the current pieces. */
  lemma DigestMatchMeansSameParts(parts: Parts, s: Session, pieces: seq<Bytes>)
    requires Truthful(parts, s) && Whole(pieces, s.completedParts, s.totalBytes)
    requires s.prefix == Sha256(Flatten(pieces[..s.completedParts]))
    ensures HoldsAll(parts, s.fileId, s.completedParts, pieces)
  {
    AssembledSplits(parts, s.fileId, s.completedParts, pieces, s.totalBytes);
  }

  // ------------------------------------------------------------------ which records are usable

  /** Integer division of the source's i64 (towards zero). */
  function TruncatedQuotient(a: int, b: nat): int
    requires b > 0
  {
    if a >= 0 then a / b else -((-a) / b)
  }

  predicate Usable(s: Session, source: Fingerprint, now: int) {
    && s.source == source
    && s.source.modifiedNs.Some?
    && s.createdAt - TruncatedQuotient(s.source.modifiedNs.value, NANOS) >= RACY_SOURCE_WINDOW_SECS
    && 0 <= now - s.createdAt <= SESSION_MAX_AGE_SECS
    && s.totalParts > 0
    && 0 <= s.completedParts <= s.totalParts
  }

  /** Consecutive parts below `limit`, each sent once. */
  predicate SentOnce(sent: seq<int>, limit: int) {
    forall i :: 0 <= i < |sent| ==> sent[i] == sent[0] + i && 0 <= sent[i] < limit
  }

  /** Exactly the parts `first..next`, in order. */
  predicate SentExactly(sent: seq<int>, first: int, next: int) {
    |sent| == next - first && forall i :: 0 <= i < |sent| ==> sent[i] == first + i
  }

  lemma ExactlyIsOnce(sent: seq<int>, first: nat, next: int, limit: int)
    requires SentExactly(sent, first, next) && next <= limit
    ensures SentOnce(sent, limit)
  {
  }

  // ------------------------------------------------------------------ one attempt's sending loop

  /** The local state of the sending loop. `refused` are the parts whose request failed. */
  datatype Flow = Flow(
    session: Session,
    nextPart: nat,
    inFlight: map<int, Bytes>,
    digests: map<int, Digest>,
    confirmed: set<int>,
    refused: set<int>)

  function PrefixDigest(pieces: seq<Bytes>, count: nat): Digest
    requires count <= |pieces|
  {
    Sha256(Flatten(pieces[..count]))
  }

  /** The durable record is the attempt's session at an earlier or equal progress. */
  ghost predicate Trails(record: Option<Session>, start: Session, session: Session, pieces: seq<Bytes>) {
    && record.Some?
    && record.value == start.(completedParts := record.value.completedParts, prefix := record.value.prefix, updatedAt := record.value.updatedAt)
    && 0 <= record.value.completedParts <= session.completedParts <= |pieces|
    && record.value.prefix == PrefixDigest(pieces, record.value.completedParts)
  }

  /** What holds whenever the sending loop is at its head. */
  ghost predicate Sending(parts: Parts, pieces: seq<Bytes>, start: Session, f: Flow) {
    && |pieces| == start.totalParts
    && f.session == start.(completedParts := f.session.completedParts, prefix := f.session.prefix)
    && 0 <= start.completedParts <= f.session.completedParts <= f.nextPart <= start.totalParts
    && f.session.prefix == PrefixDigest(pieces, f.session.completedParts)
    && HoldsAll(parts, start.fileId, f.session.completedParts, pieces)
    && (forall p :: f.session.completedParts <= p < f.nextPart <==> p in f.digests)
    && (forall p :: f.session.completedParts <= p < f.nextPart <==> p in f.inFlight || p in f.confirmed || p in f.refused)
    && (forall p: nat :: p in f.digests ==> f.digests[p] == PrefixDigest(pieces, p + 1))
    && (forall p: nat :: p in f.inFlight ==> p !in f.confirmed && p !in f.refused && f.inFlight[p] == pieces[p])
    && (forall p: nat :: p in f.confirmed ==> p !in f.refused && Holds(parts, start.fileId, p, pieces))
  }

  /** Requests only ever write parts at or above the attempt's own progress. */
  lemma RecordStaysTruthful(parts: Parts, record: Option<Session>, stream: Bytes, pieces: seq<Bytes>, start: Session, f: Flow, later: Parts)
    requires Sending(parts, pieces, start, f) && Trails(record, start, f.session, pieces)
    requires start.totalBytes > 0 && start.totalParts == PartCount(start.totalBytes)
    requires pieces == Pieces(stream, start.totalBytes) && Offset(f.nextPart, start.totalBytes) <= |stream|
    requires forall k :: k in parts ==> k in later
    requires forall k :: k in parts && !(k.0 == start.fileId && k.1 in f.inFlight) ==> later[k] == parts[k]
    ensures Truthful(later, record.value)
  {
    var k := record.value.completedParts;
    PiecesAreWhole(stream, start.totalBytes, k);
    forall p: nat | p < k
      ensures Holds(later, start.fileId, p, pieces) && |later[(start.fileId, p)]| == PartLength(p, start.totalBytes)
    {
      assert Holds(parts, start.fileId, p, pieces);
      assert p !in f.inFlight;
    }
    HoldsAllAssembles(later, start.fileId, k, pieces);
  }

  lemma SendKeeps(parts: Parts, pieces: seq<Bytes>, start: Session, f: Flow, g: Flow)
    requires Sending(parts, pieces, start, f) && f.nextPart < start.totalParts
    requires g == f.(nextPart := f.nextPart + 1,
                     digests := f.digests[f.nextPart := PrefixDigest(pieces, f.nextPart + 1)],
                     inFlight := f.inFlight[f.nextPart := pieces[f.nextPart]])
    ensures Sending(parts, pieces, start, g)
  {
    hide HoldsAll, Holds, PrefixDigest;
  }

  /** Where the sending loop starts. */
  lemma SendingStarts(parts: Parts, record: Option<Session>, pieces: seq<Bytes>, start: Session, now: int)
    requires |pieces| == start.totalParts && 0 <= start.completedParts <= start.totalParts
    requires Truthful(parts, start) && HoldsAll(parts, start.fileId, start.completedParts, pieces) && record == Some(start.(updatedAt := now))
    ensures Sending(parts, pieces, start, Flow(start, start.completedParts, map[], map[], {}, {}))
    ensures Trails(record, start, start, pieces)
  {
    HoldsAllAssembles(parts, start.fileId, start.completedParts, pieces);
  }

  lemma LoopBounds(parts: Parts, pieces: seq<Bytes>, start: Session, f: Flow, stream: Bytes, position: nat, sentBytes: Bytes)
    requires Sending(parts, pieces, start, f) && ReadUpTo(stream, start.totalBytes, f.nextPart, position, sentBytes)
    ensures 0 <= start.completedParts <= f.nextPart <= start.totalParts && Offset(f.nextPart, start.totalBytes) <= |stream|
  {
  }

  lemma SentMore(sent: seq<int>, more: seq<int>, first: int, middle: int, next: int)
    requires SentExactly(sent, first, middle) && SentExactly(more, middle, next)
    ensures SentExactly(sent + more, first, next)
  {
  }

  lemma ReplyKeeps(parts: Parts, pieces: seq<Bytes>, start: Session, f: Flow, part: nat, later: Parts, accepted: bool, g: Flow)
    requires Sending(parts, pieces, start, f) && part in f.inFlight
    requires later == parts[(start.fileId, part) := f.inFlight[part]] || (later == parts && !accepted)
    requires g == f.(inFlight := f.inFlight - {part},
                     confirmed := if accepted then f.confirmed + {part} else f.confirmed,
                     refused := if accepted then f.refused else f.refused + {part})
    ensures Sending(later, pieces, start, g)
  {
    forall p: nat | p < f.session.completedParts || (p in g.confirmed && p != part)
      ensures Holds(later, start.fileId, p, pieces)
    {
      assert Holds(parts, start.fileId, p, pieces);
    }
  }

  lemma AdvanceKeeps(parts: Parts, pieces: seq<Bytes>, start: Session, f: Flow, g: Flow)
    requires Sending(parts, pieces, start, f) && f.session.completedParts in f.confirmed
    requires f.session.completedParts in f.digests
    requires g == f.(confirmed := f.confirmed - {f.session.completedParts},
                     digests := f.digests - {f.session.completedParts},
                     session := f.session.(completedParts := f.session.completedParts + 1,
                                           prefix := f.digests[f.session.completedParts]))
    ensures Sending(parts, pieces, start, g)
  {
    forall p: nat | p < g.session.completedParts ensures Holds(parts, start.fileId, p, pieces) {
      assert p < f.session.completedParts || p in f.confirmed;
    }
  }

  /** When nothing is in flight and nothing failed, the sink holds exactly the pieces. */
  lemma NothingLeftMeansDone(parts: Parts, pieces: seq<Bytes>, start: Session, f: Flow)
    requires Sending(parts, pieces, start, f)
    requires |f.inFlight| == 0 && f.refused == {} && f.nextPart == start.totalParts
    requires f.session.completedParts !in f.confirmed
    ensures f.session.completedParts == start.totalParts
    ensures f.session.prefix == Sha256(Flatten(pieces))
    ensures HoldsAll(parts, start.fileId, start.totalParts, pieces)
    ensures Assembled(parts, start.fileId, start.totalParts) == Flatten(pieces)
  {
    var done := f.session.completedParts;
    assert done == f.nextPart by {
      assert done < f.nextPart ==> done in f.inFlight || done in f.confirmed || done in f.refused;
    }
    assert pieces[..done] == pieces;
    HoldsAllAssembles(parts, start.fileId, start.totalParts, pieces);
  }

  // ------------------------------------------------------------------ the upload

  /** Requests may end in any order. */
  method AnyKey(waiting: map<int, Bytes>) returns (part: int)
    requires |waiting| > 0
    ensures part in waiting
  {
    assert (forall p :: p !in waiting) ==> waiting.Keys == {};
    part :| part in waiting;
  }

  class Uploader {
    var record: Option<Session>
    var parts: Parts

    /** Any saved session is truthful. */
    ghost predicate Sound()
      reads this
    {
      record.Some? ==> Truthful(parts, record.value)
    }

    constructor ()
      ensures Sound() && record.None? && parts == map[]
    {
      record := None;
      parts := map[];
    }

    /** The recorded session when it is still worth continuing; otherwise the record is removed. */
    method LoadSession(source: Fingerprint, now: int) returns (ok: bool, session: Option<Session>)
      requires Sound()
      modifies this`record
      ensures Sound()
      ensures record == old(record) || record.None?
      ensures session.Some? ==> ok && record == old(record) == session && Usable(session.value, source, now)
      ensures ok && session.None? && old(record).Some? && Usable(old(record).value, source, now) ==> record == old(record)
    {
      session := None;
      if * { return false, None; }            // the store cannot be opened
      if * { return true, None; }             // an unreadable record starts over
      match record
      case None => ok := true;
      case Some(s) =>
        if Usable(s, source, now) {
          ok, session := true, Some(s);
        } else {
          if * { return false, None; }
          record := None;
          ok := true;
          if * { ok := false; }               // the account changed meanwhile
        }
    }

    /** Remove the record; a failing store may have done so or not. */
    method Discard() returns (ok: bool)
      modifies this`record
      ensures record == old(record) || record.None?
      ensures ok ==> record.None?
    {
      if * { return false; }
      record := None;
      ok := true;
      if * { ok := false; }
    }

    /** Write the record; a failing store may have done so or not. */
    method Save(session: Session, now: int) returns (ok: bool)
      modifies this`record
      ensures record == old(record) || record == Some(session.(updatedAt := now))
      ensures ok ==> record == Some(session.(updatedAt := now))
    {
      if * { return false; }
      record := Some(session.(updatedAt := now));
      ok := true;
      if * { ok := false; }
    }

    /** The attempt is over: every request still in flight is delivered or lost. */
    method Abandon(fileId: int, inFlight: map<int, Bytes>)
      modifies this`parts
      ensures forall k :: k in old(parts) ==> k in parts
      ensures forall k :: k in parts ==>
                || (k in old(parts) && parts[k] == old(parts)[k])
                || (k.0 == fileId && k.1 in inFlight && parts[k] == inFlight[k.1])
    {
      assert {} <= inFlight.Keys;
      var delivered :| delivered <= inFlight.Keys;
      parts := parts + map p | p in delivered :: (fileId, p) := inFlight[p];
    }

    /** Read the parts an earlier attempt delivered again, without sending them. */
    method Reproduce(stream: Bytes, count: nat, totalBytes: nat) returns (ok: bool, position: nat, sentBytes: Bytes)
      requires totalBytes > 0 && count <= PartCount(totalBytes)
      ensures ok ==> ReadUpTo(stream, totalBytes, count, position, sentBytes)
    {
      position, sentBytes := 0, [];
      for part := 0 to count
        invariant ReadUpTo(stream, totalBytes, part, position, sentBytes)
      {
        var bytes;
        ok, bytes := ReadPart(stream, position, part, totalBytes, sentBytes);
        if !ok { return; }
        position := position + |bytes|;
        sentBytes := sentBytes + bytes;
      }
      ok := true;
    }

    /** Read exactly one part at the reader's position; the source may fail or end early. */
    method ReadPart(stream: Bytes, position: nat, part: nat, totalBytes: nat, ghost sentBytes: Bytes) returns (ok: bool, bytes: Bytes)
      requires totalBytes > 0 && part < PartCount(totalBytes)
      requires ReadUpTo(stream, totalBytes, part, position, sentBytes)
      ensures ok ==> bytes == Pieces(stream, totalBytes)[part]
      ensures ok ==> ReadUpTo(stream, totalBytes, part + 1, position + |bytes|, sentBytes + bytes)
      ensures Offset(part + 1, totalBytes) > |stream| ==> !ok
    {
      ghost var pieces := Pieces(stream, totalBytes);
      PartBounds(part, totalBytes);
      var length := PartLength(part, totalBytes);
      if * { return false, []; }
      if position + length > |stream| { return false, []; }
      bytes := stream[position..position + length];
      ok := true;
      PieceAt(stream, totalBytes, PartCount(totalBytes), part);
      assert bytes == pieces[part];
      assert pieces[..part + 1] == pieces[..part] + [bytes];
      FlattenSnoc(pieces[..part], bytes);
    }

    /** The session to continue: the recorded one if it describes this upload, otherwise a new one. */
    method Begin(source: Fingerprint, totalBytes: nat, remoteName: string, envelopeHeader: Option<Bytes>, now: int)
      returns (ok: bool, session: Session)
      requires Sound() && totalBytes > 0
      modifies this`record
      ensures Sound()
      ensures ok ==>
                && Truthful(parts, session)
                && session.totalBytes == totalBytes
                && session.remoteName == remoteName
                && session.envelopeHeader == envelopeHeader
                && (session.completedParts > 0 ==> old(record) == Some(session) && Usable(session, source, now))
    {
      session := Session(0, totalBytes, PartCount(totalBytes), 0, Sha256([]), source, remoteName, envelopeHeader, now, now);
      var recorded;
      ok, recorded := LoadSession(source, now);
      if !ok { return; }
      if
        && recorded.Some?
        && recorded.value.totalBytes == totalBytes
        && recorded.value.totalParts == PartCount(totalBytes)
        && recorded.value.remoteName == remoteName
        && recorded.value.envelopeHeader == envelopeHeader
      {
        session := recorded.value;
      } else {
        if recorded.Some? {
          ok := Discard();
          if !ok { return; }
        }
        var fileId: int := *;                 // rand::random(); no freshness is needed
        session := session.(fileId := fileId);
      }
    }

    /** Send `stream` as the parts of one file. */
    method Upload(source: Fingerprint, stream: Bytes, totalBytes: nat, remoteName: string, envelopeHeader: Option<Bytes>, now: int)
      returns (outcome: Outcome, ghost sent: seq<int>, ghost peak: nat)
      requires Sound()
      modifies this`record, this`parts
      ensures Sound()
      ensures peak <= WORKERS
      ensures outcome.Uploaded? ==> Complete(outcome, stream, totalBytes, remoteName)
      ensures outcome.Uploaded? ==> SentExactly(sent, outcome.resumedParts, outcome.totalParts)
      ensures SentOnce(sent, PartCount(totalBytes))
      ensures outcome.Uploaded? && outcome.resumedParts > 0 ==>
                && old(record).Some?
                && Usable(old(record).value, source, now)
                && old(record).value.fileId == outcome.fileId
                && old(record).value.completedParts == outcome.resumedParts
      // progress is only thrown away as stale when the source really changed
      ensures outcome.Stale? ==>
                && record.None? && sent == []
                && old(record).Some?
                && 0 < old(record).value.completedParts
                && Offset(old(record).value.completedParts, totalBytes) <= |stream|
                && old(record).value.prefix != Sha256(stream[..Offset(old(record).value.completedParts, totalBytes)])
    {
      sent, peak := [], 0;
      if totalBytes == 0 { return Failed, [], 0; }
      var totalParts := PartCount(totalBytes);
      if totalParts > I32_MAX { return Failed, [], 0; }
      var ok, session := Begin(source, totalBytes, remoteName, envelopeHeader, now);
      if !ok { return Failed, [], 0; }
      // What was sent before must be exactly what would be sent now.
      var position, sentBytes;
      ok, position, sentBytes := Reproduce(stream, session.completedParts, totalBytes);
      if !ok { return Failed, [], 0; }
      if session.completedParts > 0 && Sha256(sentBytes) != session.prefix {
        PiecesJoin(stream, totalBytes, session.completedParts);
        ok := Discard();
        if !ok { return Failed, [], 0; }
        return Stale, [], 0;
      }
      PiecesAreWhole(stream, totalBytes, session.completedParts);
      DigestMatchMeansSameParts(parts, session, Pieces(stream, totalBytes));
      if * { return Interrupted, [], 0; }
      ok := Save(session, now);
      if !ok { return Failed, [], 0; }
      outcome, sent, peak := SendRest(stream, session, position, sentBytes, now);
    }

    /** A successful upload: the sink's parts are the stream, and the record says so. */
    ghost predicate Complete(outcome: Outcome, stream: Bytes, totalBytes: nat, remoteName: string)
      reads this
      requires outcome.Uploaded?
    {
      && 0 < totalBytes <= |stream|
      && outcome.totalParts == PartCount(totalBytes) <= I32_MAX
      && 0 <= outcome.resumedParts <= outcome.totalParts
      && outcome.name == (if remoteName == "" then "a" else remoteName)
      && Assembled(parts, outcome.fileId, outcome.totalParts) == stream[..totalBytes]
      // bytes past the declared length are not noticed
      && (Assembled(parts, outcome.fileId, outcome.totalParts) == stream <==> |stream| == totalBytes)
      && HoldsAll(parts, outcome.fileId, outcome.totalParts, Pieces(stream, totalBytes))
      && record.Some?
      && record.value.fileId == outcome.fileId
      && record.value.completedParts == outcome.totalParts
      && record.value.prefix == Sha256(stream[..totalBytes])
    }

    /** The sending loop of `Upload`, from a verified prefix on. */
    method SendRest(stream: Bytes, start: Session, startPosition: nat, startSent: Bytes, now: int)
      returns (outcome: Outcome, ghost sent: seq<int>, ghost peak: nat)
      requires Sound() && Truthful(parts, start) && start.totalParts <= I32_MAX
      requires ReadUpTo(stream, start.totalBytes, start.completedParts, startPosition, startSent)
      requires HoldsAll(parts, start.fileId, start.completedParts, Pieces(stream, start.totalBytes))
      requires record == Some(start.(updatedAt := now))
      modifies this`record, this`parts
      ensures Sound()
      ensures peak <= WORKERS
      ensures outcome == Failed || outcome == Interrupted || outcome.Uploaded?
      ensures outcome.Uploaded? ==>
                && outcome.resumedParts == start.completedParts && outcome.fileId == start.fileId
                && Complete(outcome, stream, start.totalBytes, start.remoteName)
                && SentExactly(sent, start.completedParts, start.totalParts)
      ensures SentOnce(sent, start.totalParts)
    {
      ghost var pieces := Pieces(stream, start.totalBytes);
      var f := Flow(start, start.completedParts, map[], map[], {}, {});
      var position, sentBytes, failure := startPosition, startSent, false;
      sent, peak := [], 0;
      SendingStarts(parts, record, pieces, start, now);
      LoopBounds(parts, pieces, start, f, stream, position, sentBytes);
      assert start.totalBytes > 0 && start.totalParts == PartCount(start.totalBytes);
      assert SentExactly(sent, start.completedParts, f.nextPart);
      hide Sending, Trails, ReadUpTo, HoldsAll, SentExactly, SentOnce, Truthful, Pieces, Uploader.Sound, Uploader.Complete, Offset, PartCount;
      while true
        invariant Sending(parts, pieces, start, f) && Trails(record, start, f.session, pieces)
        invariant ReadUpTo(stream, start.totalBytes, f.nextPart, position, sentBytes)
        invariant f.session.completedParts !in f.confirmed
        invariant f.refused != {} ==> failure
        invariant |f.inFlight| <= WORKERS && peak <= WORKERS
        invariant SentExactly(sent, start.completedParts, f.nextPart) && start.completedParts <= f.nextPart <= start.totalParts
        decreases 2 * (start.totalParts - f.nextPart) + |f.inFlight|
      {
        ghost var more, before := [], f.nextPart;
        f, position, sentBytes, failure, more := Fill(stream, start, f, position, sentBytes, failure);
        LoopBounds(parts, pieces, start, f, stream, position, sentBytes);
        SentMore(sent, more, start.completedParts, before, f.nextPart);
        sent := sent + more;
        ExactlyIsOnce(sent, start.completedParts, f.nextPart, start.totalParts);
        if |f.inFlight| > peak { peak := |f.inFlight|; }
        if * {
          outcome := GiveUp(stream, start, f, pieces, Interrupted);
          return;
        }
        if |f.inFlight| == 0 { break; }
        var accepted, stored;
        f, accepted, stored := AwaitReply(start, f, pieces, now);
        failure := failure || !accepted;
        if !stored {
          outcome := GiveUp(stream, start, f, pieces, Failed);
          return;
        }
      }
      outcome := Conclude(stream, start, f, failure, now);
    }

    /** All requests have ended: the final state is kept whether or not the upload is complete. */
    method Conclude(stream: Bytes, start: Session, f: Flow, failure: bool, now: int) returns (outcome: Outcome)
      requires start.totalBytes > 0 && start.totalParts == PartCount(start.totalBytes) <= I32_MAX
      requires Sending(parts, Pieces(stream, start.totalBytes), start, f)
      requires Trails(record, start, f.session, Pieces(stream, start.totalBytes))
      requires Offset(f.nextPart, start.totalBytes) <= |stream|
      requires |f.inFlight| == 0 && f.session.completedParts !in f.confirmed
      requires failure || (f.refused == {} && f.nextPart == start.totalParts)
      modifies this`record
      ensures Sound()
      ensures outcome == Failed || outcome.Uploaded?
      ensures outcome.Uploaded? ==>
                && !failure
                && outcome.resumedParts == start.completedParts && outcome.fileId == start.fileId
                && Complete(outcome, stream, start.totalBytes, start.remoteName)
    {
      ghost var pieces := Pieces(stream, start.totalBytes);
      var ok := Save(f.session, now);
      RecordStaysTruthful(parts, record, stream, pieces, start, f, parts);
      if !ok || failure { return Failed; }
      NothingLeftMeansDone(parts, pieces, start, f);
      PartsTile(start.totalBytes);
      PiecesJoin(stream, start.totalBytes, start.totalParts);
      assert pieces[..start.totalParts] == pieces;
      outcome := Uploaded(start.fileId, start.totalParts, if start.remoteName == "" then "a" else start.remoteName, start.completedParts);
    }

    /** Read and send parts while there is room. */
    method Fill(stream: Bytes, start: Session, f: Flow, position: nat, sentBytes: Bytes, failed: bool)
      returns (g: Flow, position': nat, sentBytes': Bytes, failure: bool, ghost more: seq<int>)
      requires start.totalBytes > 0 && start.totalParts == PartCount(start.totalBytes)
      requires Sending(parts, Pieces(stream, start.totalBytes), start, f)
      requires ReadUpTo(stream, start.totalBytes, f.nextPart, position, sentBytes)
      requires |f.inFlight| <= WORKERS
      ensures Sending(parts, Pieces(stream, start.totalBytes), start, g)
      ensures ReadUpTo(stream, start.totalBytes, g.nextPart, position', sentBytes')
      ensures g.session == f.session && g.confirmed == f.confirmed && g.refused == f.refused
      ensures |g.inFlight| <= WORKERS && |g.inFlight| == |f.inFlight| + (g.nextPart - f.nextPart)
      ensures SentExactly(more, f.nextPart, g.nextPart)
      ensures failed ==> failure && g == f
      ensures failure || |g.inFlight| == WORKERS || g.nextPart == start.totalParts
    {
      ghost var pieces := Pieces(stream, start.totalBytes);
      g, position', sentBytes', failure, more := f, position, sentBytes, failed, [];
      while !failure && |g.inFlight| < WORKERS && g.nextPart < start.totalParts
        invariant Sending(parts, pieces, start, g)
        invariant ReadUpTo(stream, start.totalBytes, g.nextPart, position', sentBytes')
        invariant g.session == f.session && g.confirmed == f.confirmed && g.refused == f.refused
        invariant |g.inFlight| <= WORKERS && |g.inFlight| == |f.inFlight| + (g.nextPart - f.nextPart)
        invariant SentExactly(more, f.nextPart, g.nextPart)
        invariant failed ==> failure && g == f
        decreases start.totalParts - g.nextPart, !failure
      {
        var sent;
        sent, g, position', sentBytes' := SendOne(stream, start, g, position', sentBytes');
        if sent { more := more + [g.nextPart - 1]; } else { failure := true; }
      }
    }

    /** Read the next part and put it in flight, remembering the digest of the stream up to it. */
    method SendOne(stream: Bytes, start: Session, f: Flow, position: nat, sentBytes: Bytes)
      returns (ok: bool, g: Flow, position': nat, sentBytes': Bytes)
      requires start.totalBytes > 0 && start.totalParts == PartCount(start.totalBytes)
      requires Sending(parts, Pieces(stream, start.totalBytes), start, f) && f.nextPart < start.totalParts
      requires ReadUpTo(stream, start.totalBytes, f.nextPart, position, sentBytes)
      ensures !ok ==> g == f && position' == position && sentBytes' == sentBytes
      ensures ok ==>
                && Sending(parts, Pieces(stream, start.totalBytes), start, g)
                && ReadUpTo(stream, start.totalBytes, g.nextPart, position', sentBytes')
                && g == f.(nextPart := f.nextPart + 1, inFlight := g.inFlight, digests := g.digests)
                && |g.inFlight| == |f.inFlight| + 1
    {
      ghost var pieces := Pieces(stream, start.totalBytes);
      var bytes;
      g, position', sentBytes' := f, position, sentBytes;
      ok, bytes := ReadPart(stream, position, f.nextPart, start.totalBytes, sentBytes);
      if ok {
        sentBytes' := sentBytes + bytes;
        position' := position + |bytes|;
        assert f.nextPart !in f.inFlight;
        g := f.(nextPart := f.nextPart + 1,
                digests := f.digests[f.nextPart := Sha256(sentBytes')],
                inFlight := f.inFlight[f.nextPart := bytes]);
        SendKeeps(parts, pieces, start, f, g);
      }
    }

    /** Await one reply, and store the progress when the checkpoint interval has passed. */
    method AwaitReply(start: Session, f: Flow, ghost pieces: seq<Bytes>, now: int) returns (g: Flow, accepted: bool, stored: bool)
      requires Sending(parts, pieces, start, f) && Trails(record, start, f.session, pieces)
      requires |f.inFlight| > 0
      requires f.session.completedParts !in f.confirmed
      modifies this`record, this`parts
      ensures Sending(parts, pieces, start, g) && Trails(record, start, g.session, pieces)
      ensures g.session.completedParts !in g.confirmed
      ensures g.nextPart == f.nextPart && |g.inFlight| == |f.inFlight| - 1
      ensures accepted ==> g.refused == f.refused
    {
      g, accepted := Reply(start, f, pieces);
      stored := true;
      var due: bool := *;
      if accepted && due { stored := Save(g.session, now); }
    }

    /** One request ends, in any order: accepted, or refused - possibly after it was stored. */
    method Reply(start: Session, f: Flow, ghost pieces: seq<Bytes>) returns (g: Flow, accepted: bool)
      requires Sending(parts, pieces, start, f) && Trails(record, start, f.session, pieces)
      requires |f.inFlight| > 0
      requires f.session.completedParts !in f.confirmed
      modifies this`parts
      ensures Sending(parts, pieces, start, g) && Trails(record, start, g.session, pieces)
      ensures g.session.completedParts !in g.confirmed
      ensures g.nextPart == f.nextPart && |g.inFlight| == |f.inFlight| - 1
      ensures accepted ==> g.refused == f.refused
    {
      var part := AnyKey(f.inFlight);
      ghost var before := parts;
      accepted := *;
      if accepted {
        parts := parts[(start.fileId, part) := f.inFlight[part]];
        g := f.(inFlight := f.inFlight - {part}, confirmed := f.confirmed + {part});
      } else {
        if * { parts := parts[(start.fileId, part) := f.inFlight[part]]; }
        g := f.(inFlight := f.inFlight - {part}, refused := f.refused + {part});
      }
      assert g.inFlight.Keys == f.inFlight.Keys - {part};
      ReplyKeeps(before, pieces, start, f, part, parts, accepted, g);
      g := Advance(start, g, pieces);
    }

    /** Move the confirmed prefix over every part that is now confirmed in order. */
    method Advance(start: Session, f: Flow, ghost pieces: seq<Bytes>) returns (g: Flow)
      requires Sending(parts, pieces, start, f) && Trails(record, start, f.session, pieces)
      ensures Sending(parts, pieces, start, g) && Trails(record, start, g.session, pieces)
      ensures g.session.completedParts !in g.confirmed
      ensures g.nextPart == f.nextPart && g.inFlight == f.inFlight && g.refused == f.refused
    {
      g := f;
      while g.session.completedParts in g.confirmed
        invariant Sending(parts, pieces, start, g) && Trails(record, start, g.session, pieces)
        invariant g.nextPart == f.nextPart && g.inFlight == f.inFlight && g.refused == f.refused
        decreases g.nextPart - g.session.completedParts
      {
        var done := g.session.completedParts;
        ghost var h := g;
        assert done in g.digests;             // every part read keeps its digest until it is confirmed
        g := g.(confirmed := g.confirmed - {done},
                digests := g.digests - {done},
                session := g.session.(prefix := g.digests[done], completedParts := done + 1));
        AdvanceKeeps(parts, pieces, start, h, g);
      }
    }

    /** The attempt ends with requests in flight; whatever happens to them, the record stays truthful. */
    method GiveUp(ghost stream: Bytes, start: Session, f: Flow, ghost pieces: seq<Bytes>, reason: Outcome) returns (outcome: Outcome)
      requires Sending(parts, pieces, start, f) && Trails(record, start, f.session, pieces)
      requires start.totalBytes > 0 && start.totalParts == PartCount(start.totalBytes)
      requires pieces == Pieces(stream, start.totalBytes) && Offset(f.nextPart, start.totalBytes) <= |stream|
      modifies this`parts
      ensures Sound() && outcome == reason
    {
      ghost var before := parts;
      Abandon(start.fileId, f.inFlight);
      RecordStaysTruthful(before, record, stream, pieces, start, f, parts);
      outcome := reason;
    }

    /**
      Any number of attempts on this key, cut off anywhere. Between them the source may change its contents, its
      fingerprint and its name, so that a record may be continued, found stale or set aside for a new session.
    */
    method Attempts(script: seq<Attempt>) returns (last: Outcome)
      requires Sound()
      modifies this`record, this`parts
      ensures Sound()
      ensures last.Uploaded? ==>
                && script != []
                && Complete(last, script[|script| - 1].stream, script[|script| - 1].totalBytes, script[|script| - 1].remoteName)
    {
      last := Interrupted;
      for i := 0 to |script|
        invariant Sound()
        invariant last.Uploaded? ==> i > 0 && Complete(last, script[i - 1].stream, script[i - 1].totalBytes, script[i - 1].remoteName)
      {
        var a := script[i];
        if a.discardFirst { var _ := Discard(); }
        ghost var sent, peak;
        last, sent, peak := Upload(a.source, a.stream, a.totalBytes, a.remoteName, a.envelopeHeader, a.now);
      }
    }
  }

  /** One attempt: the fingerprint of its source, what the source produces, and when. Callers may discard the record before it. */
  datatype Attempt = Attempt(
    discardFirst: bool,
    source: Fingerprint,
    stream: Bytes,
    totalBytes: nat,
    remoteName: string,
    envelopeHeader: Option<Bytes>,
    now: int)
}

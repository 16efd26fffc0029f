/**
  Streaming a byte range of a file from a CDN-aligned source of arbitrary chunks
  (app/src-tauri/src/server.rs). A source is the items it will yield; after them it ends.
*/
module MediaStream {
  import opened Common
  import opened ByteRanges

  const CDN_ALIGNMENT := 524288
  const CHUNK_SIZE := 65536
  const I32_LIMIT := 0x8000_0000

  datatype Item = Chunk(bytes: Bytes) | Failure

  type Source = seq<Item>

  /** A response body: its chunks, and whether it ended normally or in an error. */
  datatype Body = Body(chunks: seq<Bytes>, complete: bool)

  // ------------------------------------------------------------------ what a source delivers

  /** How many items come before the first failure. */
  function CleanItems(source: Source): nat {
    if source == [] || source[0].Failure? then 0 else 1 + CleanItems(source[1..])
  }

  lemma {:induction false} CleanItemsIsMaximal(source: Source)
    ensures CleanItems(source) <= |source|
    ensures forall i :: 0 <= i < CleanItems(source) ==> source[i].Chunk?
    ensures CleanItems(source) < |source| ==> source[CleanItems(source)].Failure?
  {
    if source != [] && source[0].Chunk? {
      CleanItemsIsMaximal(source[1..]);
      forall i | 0 <= i < CleanItems(source) ensures source[i].Chunk? {
        if i > 0 { assert source[i] == source[1..][i - 1]; }
      }
    }
  }

  lemma {:induction false} CleanItemsIs(source: Source, n: nat)
    requires n <= |source| && (forall i :: 0 <= i < n ==> source[i].Chunk?) && (n < |source| ==> source[n].Failure?)
    ensures CleanItems(source) == n
  {
    if n > 0 {
      assert source[0].Chunk?;
      CleanItemsIs(source[1..], n - 1);
    }
  }

  /** The bytes of the first `count` items. */
  function Received(source: Source, count: nat): Bytes
    requires count <= |source| && forall i :: 0 <= i < count ==> source[i].Chunk?
  {
    if count == 0 then [] else Received(source, count - 1) + source[count - 1].bytes
  }

  /** Every byte the source delivers before it ends or fails. */
  function Delivered(source: Source): Bytes {
    CleanItemsIsMaximal(source);
    Received(source, CleanItems(source))
  }

  lemma {:induction false} DeliveredPrefix(source: Source, count: nat, further: nat)
    requires count <= further <= |source| && forall i :: 0 <= i < further ==> source[i].Chunk?
    ensures Received(source, count) <= Received(source, further)
  {
    if count < further { DeliveredPrefix(source, count, further - 1); }
  }

  /** The window `[from, from + length)` of `bytes`, as far as they reach. */
  function Window(bytes: Bytes, from: nat, length: nat): Bytes {
    bytes[Min(from, |bytes|)..Min(from + length, |bytes|)]
  }

  // ------------------------------------------------------------------ slicing

  /**
    Drop `leading` bytes, pass on `length`. The body ends normally exactly when the source delivers
    enough bytes before failing; whatever it sent up to then is the start of the window.
  */
  method SliceMediaChunks(source: Source, leading: nat, length: nat) returns (body: Body)
    ensures Flatten(body.chunks) == Window(Delivered(source), leading, length)
    ensures body.complete <==> length == 0 || leading + length <= |Delivered(source)|
    ensures [] !in body.chunks
  {
    CleanItemsIsMaximal(source);
    var chunks, next, skipped, remaining := [], 0, 0, length;
    ghost var clean := CleanItems(source);
    ghost var seen: Bytes := [];
    while remaining > 0
      invariant next <= clean && seen == Received(source, next)
      invariant skipped == Min(leading, |seen|)
      invariant Flatten(chunks) == Window(seen, leading, length) && remaining == length - |Flatten(chunks)|
      invariant [] !in chunks
      decreases |source| - next
    {
      if next == |source| || source[next].Failure? {
        return Body(chunks, false);
      }
      var bytes := source[next].bytes;
      next := next + 1;
      WindowGrows(seen, bytes, leading, length);
      seen := seen + bytes;
      var skip := Min(leading - skipped, |bytes|);
      skipped := skipped + skip;
      bytes := bytes[skip..];
      var take := Min(remaining, |bytes|);
      if take > 0 {
        remaining := remaining - take;
        FlattenSnoc(chunks, bytes[..take]);
        chunks := chunks + [bytes[..take]];
      }
    }
    DeliveredPrefix(source, next, clean);
    WindowSettles(seen, Delivered(source), leading, length);
    body := Body(chunks, true);
  }

  lemma WindowGrows(seen: Bytes, bytes: Bytes, leading: nat, length: nat)
    ensures var skip := Min(leading - Min(leading, |seen|), |bytes|);
            var take := Min(length - |Window(seen, leading, length)|, |bytes| - skip);
            Window(seen + bytes, leading, length) == Window(seen, leading, length) + bytes[skip..][..take]
  {
  }

  /** Once the window is full, nothing the source delivers later changes it. */
  lemma WindowSettles(seen: Bytes, delivered: Bytes, leading: nat, length: nat)
    requires seen <= delivered && |Window(seen, leading, length)| == length
    ensures Window(delivered, leading, length) == Window(seen, leading, length)
    ensures length == 0 || leading + length <= |seen|
  {
  }

  // ------------------------------------------------------------------ guards and quota

  /** `after` is `before` cut off by an error somewhere, or all of it. */
  predicate CutOff(before: Body, after: Body) {
    && after.chunks <= before.chunks
    && (after.complete ==> before.complete && after.chunks == before.chunks)
  }

  /** Pass chunks on while the account (or pacer) allows it; a refusal ends the body in an error. */
  method GuardMediaChunks(body: Body) returns (guarded: Body, ghost refused: bool)
    ensures CutOff(body, guarded)
    ensures if refused then !guarded.complete else guarded == body
  {
    var passed := 0;
    while passed < |body.chunks|
      invariant passed <= |body.chunks|
    {
      if * { return Body(body.chunks[..passed], false), true; }
      passed := passed + 1;
    }
    if * { return Body(body.chunks, false), true; }
    guarded, refused := body, false;
    assert body.chunks[..passed] == body.chunks;
  }

  function SaturatingAdd(a: nat, b: nat): nat { Min(a + b, U64_MAX) }

  /** The reservation is committed exactly when the body ends normally at its declared length. */
  method QuotaMediaChunks(body: Body, expected: nat) returns (committed: bool)
    requires expected < U64_MAX
    ensures committed <==> body.complete && |Flatten(body.chunks)| == expected
  {
    var count := 0;
    for i := 0 to |body.chunks|
      invariant count == Min(|Flatten(body.chunks[..i])|, U64_MAX)
    {
      assert body.chunks[..i + 1] == body.chunks[..i] + [body.chunks[i]];
      FlattenSnoc(body.chunks[..i], body.chunks[i]);
      count := SaturatingAdd(count, |body.chunks[i]|);
    }
    assert body.chunks[..|body.chunks|] == body.chunks;
    committed := body.complete && count == expected;
  }

  // ------------------------------------------------------------------ the aligned source

  function AlignedStart(start: nat): nat { (start / CDN_ALIGNMENT) * CDN_ALIGNMENT }

  /** `as i32`: keep the low 32 bits and read them as two's complement. */
  function AsI32(value: nat): int {
    var low := value % U32_LIMIT;
    if low < I32_LIMIT then low else low - U32_LIMIT
  }

  /** The download starts exactly at the preceding CDN boundary as long as its chunk number fits an i32. */
  lemma SkippedChunksReachBoundary(start: nat)
    ensures AsI32(AlignedStart(start) / CHUNK_SIZE) * CHUNK_SIZE == AlignedStart(start) <==> AlignedStart(start) < I32_LIMIT * CHUNK_SIZE
    ensures AlignedStart(start) + start % CDN_ALIGNMENT == start
  {
    var k := start / CDN_ALIGNMENT;
    assert AlignedStart(start) / CHUNK_SIZE == 8 * k;
  }

  /** A source is honest about `file` when what it delivers is the file from the boundary on, as far as it gets. */
  predicate DeliversFrom(source: Source, file: Bytes, start: nat) {
    AlignedStart(start) <= |file| && Delivered(source) <= file[AlignedStart(start)..]
  }

  lemma WindowOfAligned(source: Source, file: Bytes, start: nat, length: nat)
    requires DeliversFrom(source, file, start) && start + length <= |file|
    ensures Window(Delivered(source), start % CDN_ALIGNMENT, length) <= file[start..start + length]
    ensures start % CDN_ALIGNMENT + length <= |Delivered(source)| ==>
              Window(Delivered(source), start % CDN_ALIGNMENT, length) == file[start..start + length]
  {
    SkippedChunksReachBoundary(start);
    var tail := file[AlignedStart(start)..];
    var leading := start % CDN_ALIGNMENT;
    assert tail[leading..leading + length] == file[start..start + length];
    var w := Window(Delivered(source), leading, length);
    forall i | 0 <= i < |w| ensures w[i] == file[start..start + length][i] {
      assert w[i] == Delivered(source)[leading + i] == tail[leading + i];
    }
  }

  // ------------------------------------------------------------------ the response

  datatype Response =
    | NotFound
    | RangeNotSatisfiable(size: nat)
    | TooManyRequests
    | Ok(length: nat, body: Body, committed: bool)
    | PartialContent(first: nat, last: nat, size: nat, length: nat, body: Body, committed: bool)

  /** The aligned source reaches the end of the requested bytes before it ends or fails. */
  predicate Enough(source: Source, start: nat, length: nat) {
    length == 0 || start % CDN_ALIGNMENT + length <= |Delivered(source)|
  }

  /** A body that is the requested slice of `file`: the start of it at least, all of it when it ends normally. */
  predicate Serves(body: Body, file: Bytes, start: nat, length: nat)
    requires start + length <= |file|
  {
    && Flatten(body.chunks) <= file[start..start + length]
    && (body.complete ==> Flatten(body.chunks) == file[start..start + length])
  }

  lemma CutOffServes(before: Body, after: Body, file: Bytes, start: nat, length: nat)
    requires start + length <= |file| && Serves(before, file, start, length) && CutOff(before, after)
    ensures Serves(after, file, start, length)
  {
    FlattenPrefix(after.chunks, before.chunks);
  }

  /** Slice, pace, guard and account for one served range. */
  method ServeSlice(source: Source, file: Bytes, start: nat, length: nat) returns (body: Body, committed: bool, ghost refused: bool)
    requires start + length <= |file| < U64_MAX
    ensures DeliversFrom(source, file, start) ==> Serves(body, file, start, length)
    ensures committed <==> body.complete
    ensures body.complete <==> !refused && Enough(source, start, length)
  {
    var slice := SliceMediaChunks(source, start % CDN_ALIGNMENT, length);
    if DeliversFrom(source, file, start) { WindowOfAligned(source, file, start, length); }
    ghost var paceRefused, guardRefused;
    var paced;
    paced, paceRefused := GuardMediaChunks(slice);
    body, guardRefused := GuardMediaChunks(paced);
    refused := paceRefused || guardRefused;
    if Serves(slice, file, start, length) {
      CutOffServes(slice, paced, file, start, length);
      CutOffServes(paced, body, file, start, length);
    }
    committed := QuotaMediaChunks(body, length);
  }

  /** The chunk number of the preceding boundary fits an i32; `SkippedChunksReachBoundary` says that the download then starts there. */
  predicate Reachable(start: nat) { AlignedStart(start) < I32_LIMIT * CHUNK_SIZE }

  /** The first byte position a served response covers. */
  function Start(response: Response): nat {
    if response.PartialContent? then response.first else 0
  }

  /**
    The shared HTTP contract. For every field, size and chunking of the source: the response is partial
    exactly when the range selection is, its headers describe that range, and a body that ends normally
    is exactly that slice of the file. Unless the account or the pacer refuses, it ends normally exactly when
    the source delivers enough; a source that fails or ends early always ends it in an error. Only a body
    that ended normally is charged. The slice is right for every start below 2^47 bytes, and so for every file up to
    that size: beyond it the chunk number to skip to overflows, and nothing is said about what the source delivers.
  */
  method BuildMediaResponse(file: Bytes, header: Option<string>, accountValid: bool, admitted: bool, sources: nat -> Source)
    returns (response: Response, ghost refused: bool)
    requires |file| < U64_MAX
    requires forall start: nat :: (start < |file| || start == 0) && Reachable(start) ==> DeliversFrom(sources(start), file, start)
    ensures response.NotFound? <==> !accountValid
    ensures accountValid ==> (response.RangeNotSatisfiable? <==> SelectRange(header, |file|).Unsatisfiable?)
    ensures response.TooManyRequests? ==> !admitted
    ensures response.PartialContent? ==>
              && SelectRange(header, |file|) == Partial(response.first, response.last)
              && response.first <= response.last < |file| == response.size
              && response.length == response.last - response.first + 1
    ensures response.Ok? ==> SelectRange(header, |file|) == Full && response.length == |file|
    ensures response.Ok? || response.PartialContent? ==>
              && admitted
              && Start(response) + response.length <= |file|
              && (Reachable(Start(response)) ==> Serves(response.body, file, Start(response), response.length))
              && (response.committed <==> response.body.complete)
              && (response.body.complete <==> !refused && Enough(sources(Start(response)), Start(response), response.length))
  {
    refused := false;
    if !accountValid { return NotFound, false; }
    var size := |file|;
    var start, last, isRange;
    match SelectRange(header, size) {
      case Unsatisfiable => return RangeNotSatisfiable(size), false;
      case Full => start, last, isRange := 0, if size == 0 then 0 else size - 1, false;
      case Partial(a, b) => start, last, isRange := a, b, true;
    }
    PartialIsInside(header, size);
    var length := if isRange then last - start + 1 else size;
    if !admitted { return TooManyRequests, false; }
    var body, committed;
    body, committed, refused := ServeSlice(sources(start), file, start, length);
    response := if isRange then PartialContent(start, last, size, length, body, committed) else Ok(length, body, committed);
  }

  /** Every position of a file of at most 2^47 bytes is reachable. */
  lemma SmallFilesAreReachable(size: nat, start: nat)
    requires size <= I32_LIMIT * CHUNK_SIZE && (start < size || start == 0)
    ensures Reachable(start)
  {
    SkippedChunksReachBoundary(start);
  }

  lemma PartialIsInside(header: Option<string>, size: nat)
    ensures var r := SelectRange(header, size); r.Partial? ==> r.first <= r.last < size
  {
  }

  lemma FlattenPrefix(a: seq<Bytes>, b: seq<Bytes>)
    requires a <= b
    ensures Flatten(a) <= Flatten(b)
  {
    assert a + b[|a|..] == b;
    FlattenAppend(a, b[|a|..]);
  }
}

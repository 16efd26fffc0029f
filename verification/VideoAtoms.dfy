/**
  The bounded metadata of a video container (app/src-tauri/src/desktop_video_upload.rs): its `ftyp` and `moov`
  boxes, and whether Telegram Desktop would stream it.
*/
module VideoAtoms {
  import opened Common
  import opened IsoBoxes

  const METADATA_LIMIT := 16 * 1024 * 1024
  const STREAMING_LIMIT := 128 * 1024
  /** One fewer than the loop's turns: the last turn only notices the end of the file. */
  const MAX_ATOMS := 65_535

  const FTYP: Bytes := [0x66, 0x74, 0x79, 0x70]
  const MOOV: Bytes := [0x6d, 0x6f, 0x6f, 0x76]

  // ------------------------------------------------------------------ what is collected

  predicate IsMetadata(box: Box) { box.kind == FTYP || box.kind == MOOV }

  /** The box's bytes, with the size written out when it runs to the end of the file. */
  function Normalised(file: Bytes, box: Box): Bytes
    requires box.start + 8 <= box.end <= |file|
  {
    if Fold(file[box.start..box.start + 4]) == 0 then BigEndian((box.end - box.start) % U32_LIMIT, 4) + file[box.start + 4..box.end]
    else file[box.start..box.end]
  }

  predicate InFile(file: Bytes, boxes: seq<Box>) {
    forall i :: 0 <= i < |boxes| ==> boxes[i].header >= 8 && boxes[i].start + boxes[i].header <= boxes[i].end <= |file|
  }

  /** The metadata boxes of a file, in file order. */
  function Collected(file: Bytes, boxes: seq<Box>): Bytes
    requires InFile(file, boxes)
  {
    if boxes == [] then []
    else
      var last := boxes[|boxes| - 1];
      Collected(file, boxes[..|boxes| - 1]) + (if IsMetadata(last) then Normalised(file, last) else [])
  }

  lemma CollectedSnoc(file: Bytes, boxes: seq<Box>, box: Box)
    requires InFile(file, boxes + [box])
    ensures InFile(file, boxes) && box.start + 8 <= box.end <= |file|
    ensures Collected(file, boxes + [box]) == Collected(file, boxes) + (if IsMetadata(box) then Normalised(file, box) else [])
  {
    var longer := boxes + [box];
    assert longer[..|longer| - 1] == boxes && longer[|boxes|] == box;
    forall i | 0 <= i < |boxes| ensures boxes[i].header >= 8 && boxes[i].start + boxes[i].header <= boxes[i].end <= |file| { assert longer[i] == boxes[i]; }
  }

  lemma {:induction false} CollectedGrows(file: Bytes, boxes: seq<Box>, n: nat)
    requires InFile(file, boxes) && n <= |boxes|
    ensures InFile(file, boxes[..n]) && |Collected(file, boxes[..n])| <= |Collected(file, boxes)|
    decreases |boxes|
  {
    if n < |boxes| {
      var init := boxes[..|boxes| - 1];
      assert boxes == init + [boxes[|boxes| - 1]];
      CollectedSnoc(file, init, boxes[|boxes| - 1]);
      CollectedGrows(file, init, n);
      assert init[..n] == boxes[..n];
    } else {
      assert boxes[..n] == boxes;
    }
  }

  /** A box with an explicit size is collected byte for byte. */
  lemma ExplicitIsVerbatim(file: Bytes, offset: nat)
    requires BoxAt(file, offset, Strict).Some? && |file| < U64_LIMIT && !ContentOf(file, BoxAt(file, offset, Strict).value).form.ToEnd?
    ensures var box := BoxAt(file, offset, Strict).value; Normalised(file, box) == file[box.start..box.end] == Write(ContentOf(file, box))
  {
    ParsedBoxRewrites(file, offset, Strict);
  }

  /** A box that runs to the end and fits the limit is collected with its size written out: its kind and data stay. */
  lemma ToEndIsSized(file: Bytes, offset: nat)
    requires BoxAt(file, offset, Strict).Some? && ContentOf(file, BoxAt(file, offset, Strict).value).form.ToEnd?
    requires BoxAt(file, offset, Strict).value.end - offset <= METADATA_LIMIT
    ensures var box := BoxAt(file, offset, Strict).value;
            var c := ContentOf(file, box);
            box.end == |file| && Normalised(file, box) == Write(Content(c.kind, c.data, Short))
  {
    var box := BoxAt(file, offset, Strict).value;
    var size := BigEndian(box.end - offset, 4);
    Rejoin(size, file[offset + 4..offset + 8], file[offset + 8..box.end]);
    Concatenate(file, offset + 4, offset + 8, box.end);
    FitsU32(box.end - offset);
  }

  lemma FitsU32(size: nat)
    requires size <= METADATA_LIMIT
    ensures size % U32_LIMIT == size
  {
  }

  lemma Rejoin(a: Bytes, b: Bytes, c: Bytes)
    ensures a + (b + c) == a + b + c
  {
  }

  // ------------------------------------------------------------------ the streaming decision

  function PreviousStart(boxes: seq<Box>): nat { if boxes == [] then 0 else boxes[|boxes| - 1].start }

  /** The latched decision after these boxes. */
  function Decision(boxes: seq<Box>): Option<bool> {
    if boxes == [] then None
    else
      var init := boxes[..|boxes| - 1];
      if Decision(init).Some? then Decision(init)
      else if PreviousStart(init) >= STREAMING_LIMIT then Some(false)
      else if boxes[|boxes| - 1].kind == MOOV then Some(true)
      else None
  }

  lemma DecisionSnoc(boxes: seq<Box>, box: Box)
    ensures Decision(boxes + [box]) == if Decision(boxes).Some? then Decision(boxes) else if PreviousStart(boxes) >= STREAMING_LIMIT then Some(false)
                                       else if box.kind == MOOV then Some(true) else None
    ensures PreviousStart(boxes + [box]) == box.start
  {
    assert (boxes + [box])[..|boxes|] == boxes;
  }

  predicate NoMoov(boxes: seq<Box>) { forall i :: 0 <= i < |boxes| ==> boxes[i].kind != MOOV }

  /** A first `moov` exists, and the box before it, if any, starts early enough. */
  predicate Streams(boxes: seq<Box>) {
    exists i :: 0 <= i < |boxes| && boxes[i].kind == MOOV && NoMoov(boxes[..i]) && PreviousStart(boxes[..i]) < STREAMING_LIMIT
  }

  predicate Ordered(boxes: seq<Box>) {
    forall i, j :: 0 <= i < j < |boxes| ==> boxes[i].start <= boxes[j].start
  }

  /** A box that starts too late, before any `moov`. */
  predicate TooLate(boxes: seq<Box>) {
    exists j :: 0 < j <= |boxes| && NoMoov(boxes[..j]) && boxes[j - 1].start >= STREAMING_LIMIT
  }

  lemma StreamsLonger(init: seq<Box>, boxes: seq<Box>)
    requires init <= boxes
    ensures Streams(init) ==> Streams(boxes)
    ensures TooLate(init) ==> TooLate(boxes)
  {
    if Streams(init) {
      var i :| 0 <= i < |init| && init[i].kind == MOOV && NoMoov(init[..i]) && PreviousStart(init[..i]) < STREAMING_LIMIT;
      assert init[..i] == boxes[..i] && boxes[i].kind == MOOV;
    }
    if TooLate(init) {
      var j :| 0 < j <= |init| && NoMoov(init[..j]) && init[j - 1].start >= STREAMING_LIMIT;
      assert init[..j] == boxes[..j] && boxes[j - 1].start >= STREAMING_LIMIT;
    }
  }

  /** What one more box decides when nothing was decided before. */
  lemma DecisionLast(init: seq<Box>, box: Box)
    requires NoMoov(init)
    ensures PreviousStart(init) >= STREAMING_LIMIT ==> TooLate(init + [box])
    ensures PreviousStart(init) < STREAMING_LIMIT && box.kind == MOOV ==> Streams(init + [box])
    ensures box.kind != MOOV ==> NoMoov(init + [box])
  {
    var boxes, n := init + [box], |init|;
    assert boxes[..n] == init;
    if PreviousStart(init) >= STREAMING_LIMIT { assert boxes[n - 1].start >= STREAMING_LIMIT; }
    assert boxes[n] == box;
  }

  lemma {:induction false} DecisionMeans(boxes: seq<Box>)
    ensures var d := Decision(boxes); if d.None? then NoMoov(boxes) else if d.value then Streams(boxes) else TooLate(boxes)
    decreases |boxes|
  {
    if boxes != [] {
      var n := |boxes| - 1;
      var init, box := boxes[..n], boxes[n];
      assert boxes == init + [box];
      DecisionMeans(init);
      DecisionSnoc(init, box);
      StreamsLonger(init, boxes);
      if Decision(init).None? { DecisionLast(init, box); }
    }
  }

  /** The latch reports streaming exactly when the first `moov` follows a box that starts below 128 KiB, or none. */
  lemma DecisionIsStreams(boxes: seq<Box>)
    requires Ordered(boxes)
    ensures Decision(boxes) == Some(true) <==> Streams(boxes)
  {
    DecisionMeans(boxes);
    forall i, j | 0 <= i < |boxes| && boxes[i].kind == MOOV && 0 < j <= |boxes| && NoMoov(boxes[..j]) && boxes[j - 1].start >= STREAMING_LIMIT
      ensures PreviousStart(boxes[..i]) >= STREAMING_LIMIT
    {
      MoovNotBefore(boxes, i, j);
    }
  }

  lemma MoovNotBefore(boxes: seq<Box>, i: nat, j: nat)
    requires Ordered(boxes) && i < |boxes| && 0 < j <= |boxes| && boxes[i].kind == MOOV
    requires NoMoov(boxes[..j]) && boxes[j - 1].start >= STREAMING_LIMIT
    ensures j <= i && PreviousStart(boxes[..i]) >= STREAMING_LIMIT
  {
    forall k | 0 <= k < j ensures boxes[k].kind != MOOV { assert boxes[..j][k] == boxes[k]; }
  }

  lemma {:induction false} TiledIsOrdered(file: Bytes, boxes: seq<Box>, i: nat, j: nat)
    requires Tiles(file, 0, Strict, boxes) && i <= j < |boxes|
    ensures boxes[i].start <= boxes[j].start
  {
    if i < j {
      TiledIsOrdered(file, boxes, i, j - 1);
      assert BoxAt(file, boxes[j - 1].start, Strict) == Some(boxes[j - 1]);
    }
  }

  // ------------------------------------------------------------------ the loop

  /** The file's boxes, when they tile it and there are not too many. */
  function Atoms(file: Bytes): Option<seq<Box>> { Parse(file, 0, MAX_ATOMS, Strict) }

  /** A file is accepted when its boxes tile it and its metadata boxes fit the limit. */
  predicate Acceptable(file: Bytes) {
    var atoms := Atoms(file);
    && atoms.Some?
    && InFile(file, atoms.value) && |Collected(file, atoms.value)| <= METADATA_LIMIT
  }

  /** Where the loop stands after reading `done`. */
  predicate Reading(file: Bytes, offset: nat, done: seq<Box>, metadata: Bytes, decision: Option<bool>, previous: nat) {
    && offset <= |file| && |done| <= MAX_ATOMS && Atoms(file) == Prepend(done, Parse(file, offset, MAX_ATOMS - |done|, Strict))
    && InFile(file, done) && metadata == Collected(file, done) && |metadata| <= METADATA_LIMIT
    && decision == Decision(done) && previous == PreviousStart(done)
  }

  lemma ReadingStarts(file: Bytes)
    ensures Reading(file, 0, [], [], None, 0)
  {
    NothingDone(Parse(file, 0, MAX_ATOMS, Strict));
  }

  lemma ReadingSteps(file: Bytes, offset: nat, done: seq<Box>, metadata: Bytes, decision: Option<bool>, previous: nat, box: Box, collected: Bytes)
    requires Reading(file, offset, done, metadata, decision, previous) && |done| < MAX_ATOMS && offset < |file| && BoxAt(file, offset, Strict) == Some(box)
    requires collected == metadata + (if IsMetadata(box) then Normalised(file, box) else []) && |collected| <= METADATA_LIMIT
    ensures Reading(file, box.end, done + [box], collected, Decision(done + [box]), offset)
    ensures Decision(done + [box]) == if decision.Some? then decision else if previous >= STREAMING_LIMIT then Some(false)
                                      else if box.kind == MOOV then Some(true) else None
  {
    ParseStep(file, offset, MAX_ATOMS - |done|, Strict, done);
    DecisionSnoc(done, box);
    InFileSnoc(file, done, box);
    CollectedSnoc(file, done, box);
  }

  lemma InFileSnoc(file: Bytes, boxes: seq<Box>, box: Box)
    requires InFile(file, boxes) && box.header >= 8 && box.start + box.header <= box.end <= |file|
    ensures InFile(file, boxes + [box])
  {
  }

  /** A file whose next box cannot be read, or whose metadata no longer fits, is not acceptable. */
  lemma ReadingFails(file: Bytes, offset: nat, done: seq<Box>, metadata: Bytes, decision: Option<bool>, previous: nat)
    requires Reading(file, offset, done, metadata, decision, previous) && offset < |file|
    requires |done| == MAX_ATOMS || BoxAt(file, offset, Strict).None?
             || (IsMetadata(BoxAt(file, offset, Strict).value) && |metadata| + (BoxAt(file, offset, Strict).value.end - offset) > METADATA_LIMIT)
    ensures !Acceptable(file)
  {
    ParseStep(file, offset, MAX_ATOMS - |done|, Strict, done);
    if |done| < MAX_ATOMS && BoxAt(file, offset, Strict).Some? && Atoms(file).Some? && InFile(file, Atoms(file).value) {
      var box := BoxAt(file, offset, Strict).value;
      TooMuch(file, Atoms(file).value, done, box);
    }
  }

  /** A prefix of the boxes that collects too much makes the whole collect too much. */
  lemma TooMuch(file: Bytes, atoms: seq<Box>, done: seq<Box>, box: Box)
    requires InFile(file, atoms) && done + [box] <= atoms && IsMetadata(box)
    ensures InFile(file, done) && |Collected(file, atoms)| >= |Collected(file, done)| + (box.end - box.start)
  {
    assert atoms[..|done| + 1] == done + [box];
    CollectedGrows(file, atoms, |done| + 1);
    CollectedSnoc(file, done, box);
    assert |Normalised(file, box)| == box.end - box.start;
  }

  /** Read one box: its place, what it adds to the metadata, and the decision after it. */
  method ReadAtom(file: Bytes, offset: nat, ghost done: seq<Box>, metadata: Bytes, decision: Option<bool>, previous: nat)
    returns (box: Option<Box>, metadata': Bytes, decision': Option<bool>)
    requires Reading(file, offset, done, metadata, decision, previous) && offset < |file|
    ensures box.None? ==> !Acceptable(file)
    ensures box.Some? && |done| < MAX_ATOMS ==> BoxAt(file, offset, Strict) == box && Reading(file, box.value.end, done + [box.value], metadata', decision', offset)
    ensures box.Some? && |done| == MAX_ATOMS ==> !Acceptable(file)
  {
    metadata', decision' := metadata, decision;
    if |done| == MAX_ATOMS || BoxAt(file, offset, Strict).None? { ReadingFails(file, offset, done, metadata, decision, previous); }
    box := BoxAt(file, offset, Strict);
    if box.None? { return; }
    if decision.None? {
      if previous >= STREAMING_LIMIT {
        decision' := Some(false);
      } else if box.value.kind == MOOV {
        decision' := Some(true);
      }
    }
    if IsMetadata(box.value) {
      if |metadata| + (box.value.end - offset) > METADATA_LIMIT {
        ReadingFails(file, offset, done, metadata, decision, previous);
        return None, metadata', decision';
      }
      metadata' := metadata + Normalised(file, box.value);
    }
    if |done| < MAX_ATOMS { ReadingSteps(file, offset, done, metadata, decision, previous, box.value, metadata'); }
  }

  /**
    `metadata_atoms`: unless it is stopped or times out, a file is accepted exactly when at most 65,535 boxes tile it
    and its `ftyp` and `moov` boxes fit 16 MiB; those are then returned in file order, and streaming is reported
    exactly when a first `moov` exists and the box before it, if any, starts below 128 KiB.
  */
  method MetadataAtoms(file: Bytes) returns (result: Option<(Bytes, bool)>, ghost interrupted: bool)
    ensures result.Some? ==>
              && Acceptable(file) && result.value.0 == Collected(file, Atoms(file).value) && |result.value.0| <= METADATA_LIMIT
              && (result.value.1 <==> Streams(Atoms(file).value))
    ensures result.None? ==> interrupted || !Acceptable(file)
  {
    var offset, metadata, decision, previous := 0, [], None, 0;
    ghost var done: seq<Box> := [];
    interrupted := false;
    ReadingStarts(file);
    for i := 0 to 65_536
      invariant i <= MAX_ATOMS ==> |done| == i && Reading(file, offset, done, metadata, decision, previous)
      invariant i == 65_536 ==> !Acceptable(file)
    {
      var stopped: bool := *;
      if stopped { return None, true; }
      if offset == |file| {
        Finished(file, done, metadata, decision, previous);
        return Some((metadata, decision == Some(true))), false;
      }
      var box;
      box, metadata, decision := ReadAtom(file, offset, done, metadata, decision, previous);
      if box.None? { return None, false; }
      done := done + [box.value];
      previous, offset := offset, box.value.end;
    }
    result := None;
  }

  lemma Finished(file: Bytes, done: seq<Box>, metadata: Bytes, decision: Option<bool>, previous: nat)
    requires Reading(file, |file|, done, metadata, decision, previous)
    ensures Acceptable(file) && Atoms(file) == Some(done) && metadata == Collected(file, done)
    ensures decision == Some(true) <==> Streams(done)
  {
    assert done + [] == done;
    ParseTiles(file, 0, MAX_ATOMS, Strict);
    forall i, j | 0 <= i < j < |done| ensures done[i].start <= done[j].start { TiledIsOrdered(file, done, i, j); }
    DecisionIsStreams(done);
  }
}

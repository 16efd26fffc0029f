/**
  Length-prefixed boxes of section 4.2 of ISO/IEC 14496-12, as app/src-tauri/src/heic.rs and
  app/src-tauri/src/desktop_video_upload.rs read them: 32-bit sizes, 64-bit sizes and boxes
  that run to the end. The two differ on a 64-bit size of zero.
*/
module IsoBoxes {
  import opened Common

  const MAX_BOXES := 4096

  // ------------------------------------------------------------------ big-endian numbers

  /** Shift in one byte after the other, in 64 bits. */
  function Fold(bytes: Bytes): nat {
    if bytes == [] then 0 else (Fold(bytes[..|bytes| - 1]) * 256) % U64_LIMIT + bytes[|bytes| - 1]
  }

  /** `number`: a big-endian field, or none when it reaches past the end. */
  function Number(bytes: Bytes, offset: nat, length: nat): Option<nat> {
    if offset + length <= |bytes| then Some(Fold(bytes[offset..offset + length])) else None
  }

  function Power(n: nat): nat { if n == 0 then 1 else 256 * Power(n - 1) }

  /** The `n`-byte big-endian form of a value. */
  function BigEndian(value: nat, n: nat): (bytes: Bytes)
    ensures |bytes| == n
  {
    if n == 0 then [] else BigEndian(value / 256, n - 1) + [value % 256]
  }

  lemma {:induction false} PowersGrow(m: nat, n: nat)
    requires m <= n
    ensures Power(m) <= Power(n)
  {
    if m < n { PowersGrow(m, n - 1); }
  }

  lemma EightBytes()
    ensures Power(4) == U32_LIMIT && Power(8) == U64_LIMIT
  {
    assert Power(2) == 65536;
    assert Power(4) == 256 * (256 * Power(2));
    assert Power(6) == 256 * (256 * Power(4));
    assert Power(8) == 256 * (256 * Power(6));
  }

  lemma {:induction false} FoldIsSmall(bytes: Bytes)
    requires |bytes| <= 8
    ensures Fold(bytes) < Power(|bytes|)
    ensures bytes != [] ==> Fold(bytes) == Fold(bytes[..|bytes| - 1]) * 256 + bytes[|bytes| - 1]
  {
    if bytes != [] {
      FoldIsSmall(bytes[..|bytes| - 1]);
      EightBytes();
      PowersGrow(|bytes| - 1, 7);
      assert Power(8) == 256 * Power(7);
    }
  }

  /** A field of at most eight bytes reads back the value that was written. */
  lemma {:induction false} FoldReadsBigEndian(value: nat, n: nat)
    requires n <= 8 && value < Power(n)
    ensures Fold(BigEndian(value, n)) == value
  {
    if n > 0 {
      FoldReadsBigEndian(value / 256, n - 1);
      var bytes := BigEndian(value, n);
      FoldIsSmall(bytes);
      assert bytes[..|bytes| - 1] == BigEndian(value / 256, n - 1);
    }
  }

  /** A field of at most eight bytes is the big-endian form of its value. */
  lemma {:induction false} BigEndianOfFold(bytes: Bytes)
    requires |bytes| <= 8
    ensures BigEndian(Fold(bytes), |bytes|) == bytes
  {
    if bytes != [] {
      FoldIsSmall(bytes);
      var init, last := bytes[..|bytes| - 1], bytes[|bytes| - 1];
      BigEndianOfFold(init);
      SplitLast(Fold(init), last);
      assert bytes == init + [last];
    }
  }

  lemma SplitLast(q: nat, r: nat)
    requires r < 256
    ensures (q * 256 + r) / 256 == q && (q * 256 + r) % 256 == r
  {
  }

  // ------------------------------------------------------------------ one box

  /**
    The two readers differ in a 64-bit size of zero: heic.rs takes such a box to run to the end of its container,
    desktop_video_upload.rs rejects it, and section 4.2 of ISO/IEC 14496-12 knows no such box.
  */
  datatype Reader = Lenient | Strict

  /** A box from `start` to `end`, its data after a header of 8 or 16 bytes. */
  datatype Box = Box(start: nat, header: nat, end: nat, kind: Bytes)

  /** The 64-bit size field of a box whose 32-bit size is one. */
  function LongSize(bytes: Bytes, offset: nat): nat
    requires offset + 16 <= |bytes|
  {
    Fold(bytes[offset + 8..offset + 16])
  }

  /** The size a header states, or the rest of the container. */
  function StatedSize(bytes: Bytes, offset: nat, reader: Reader): nat
    requires offset + 8 <= |bytes| && (Fold(bytes[offset..offset + 4]) == 1 ==> offset + 16 <= |bytes|)
  {
    var short := Fold(bytes[offset..offset + 4]);
    if short == 0 then |bytes| - offset
    else if short != 1 then short
    else if LongSize(bytes, offset) == 0 && reader.Lenient? then |bytes| - offset
    else LongSize(bytes, offset)
  }

  /** The box whose header stands at `offset`: none if it is truncated, too small for its header or too large. */
  function BoxAt(bytes: Bytes, offset: nat, reader: Reader): (box: Option<Box>)
    ensures box.Some? ==>
              var b := box.value;
              && b.start == offset && b.start + b.header <= b.end <= |bytes| && (b.header == 8 || b.header == 16)
              && b.kind == bytes[offset + 4..offset + 8]
  {
    if offset + 8 > |bytes| then None
    else
      var short := Fold(bytes[offset..offset + 4]);
      if short == 1 && offset + 16 > |bytes| then None
      else
        var header, size := if short == 1 then 16 else 8, StatedSize(bytes, offset, reader);
        if offset + size > |bytes| || size < header then None
        else Some(Box(offset, header, offset + size, bytes[offset + 4..offset + 8]))
  }

  /** A box that runs to the end of its container although its size is stated in 64 bits. */
  predicate LongToEndAt(bytes: Bytes, offset: nat) {
    offset + 16 <= |bytes| && Fold(bytes[offset..offset + 4]) == 1 && LongSize(bytes, offset) == 0
  }

  // ------------------------------------------------------------------ a run of boxes

  /** The boxes from `offset` to the end, at most `limit` of them. */
  function Parse(bytes: Bytes, offset: nat, limit: nat, reader: Reader): Option<seq<Box>>
    requires offset <= |bytes|
    decreases |bytes| - offset
  {
    if offset == |bytes| then Some([])
    else if limit == 0 then None
    else
      var box := BoxAt(bytes, offset, reader);
      if box.None? then None
      else
        var rest := Parse(bytes, box.value.end, limit - 1, reader);
        if rest.None? then None else Some([box.value] + rest.value)
  }

  /** Boxes that follow each other without gap or overlap from `from` to the end of the input. */
  predicate Tiles(bytes: Bytes, from: nat, reader: Reader, boxes: seq<Box>) {
    && (forall i :: 0 <= i < |boxes| ==> BoxAt(bytes, boxes[i].start, reader) == Some(boxes[i]))
    && (forall i :: 0 <= i < |boxes| - 1 ==> boxes[i + 1].start == boxes[i].end)
    && if boxes == [] then from == |bytes| else boxes[0].start == from && boxes[|boxes| - 1].end == |bytes|
  }

  /** One more box in front. */
  lemma TilesCons(bytes: Bytes, reader: Reader, box: Box, boxes: seq<Box>)
    requires BoxAt(bytes, box.start, reader) == Some(box) && Tiles(bytes, box.end, reader, boxes)
    ensures Tiles(bytes, box.start, reader, [box] + boxes)
  {
    var all := [box] + boxes;
    forall i | 0 <= i < |all| ensures BoxAt(bytes, all[i].start, reader) == Some(all[i]) { if i > 0 { assert all[i] == boxes[i - 1]; } }
    forall i | 0 <= i < |all| - 1 ensures all[i + 1].start == all[i].end {
      assert all[i + 1] == boxes[i];
      if i > 0 { assert all[i] == boxes[i - 1]; }
    }
  }

  /** Parsing succeeds exactly on inputs that boxes tile, with exactly those boxes. */
  lemma {:induction false} ParseTiles(bytes: Bytes, offset: nat, limit: nat, reader: Reader)
    requires offset <= |bytes|
    ensures var r := Parse(bytes, offset, limit, reader); r.Some? ==> Tiles(bytes, offset, reader, r.value) && |r.value| <= limit
    decreases |bytes| - offset
  {
    if offset < |bytes| && limit > 0 && BoxAt(bytes, offset, reader).Some? {
      var box := BoxAt(bytes, offset, reader).value;
      ParseTiles(bytes, box.end, limit - 1, reader);
      var rest := Parse(bytes, box.end, limit - 1, reader);
      if rest.Some? { TilesCons(bytes, reader, box, rest.value); }
    }
  }

  lemma {:induction false} TilesParse(bytes: Bytes, offset: nat, limit: nat, reader: Reader, boxes: seq<Box>)
    requires offset <= |bytes| && Tiles(bytes, offset, reader, boxes) && |boxes| <= limit
    ensures Parse(bytes, offset, limit, reader) == Some(boxes)
    decreases |boxes|
  {
    if boxes != [] {
      var rest := boxes[1..];
      assert BoxAt(bytes, boxes[0].start, reader) == Some(boxes[0]);
      if rest != [] { assert rest[0] == boxes[1]; }
      forall i | 0 <= i < |rest| ensures BoxAt(bytes, rest[i].start, reader) == Some(rest[i]) { assert rest[i] == boxes[i + 1]; }
      forall i | 0 <= i < |rest| - 1 ensures rest[i + 1].start == rest[i].end { assert boxes[i + 2].start == boxes[i + 1].end; }
      TilesParse(bytes, boxes[0].end, limit - 1, reader, rest);
      assert boxes == [boxes[0]] + rest;
    }
  }

  lemma TilingIsUnique(bytes: Bytes, limit: nat, reader: Reader, boxes: seq<Box>)
    requires |boxes| <= limit
    ensures Tiles(bytes, 0, reader, boxes) <==> Parse(bytes, 0, limit, reader) == Some(boxes)
  {
    if Tiles(bytes, 0, reader, boxes) { TilesParse(bytes, 0, limit, reader, boxes); }
    ParseTiles(bytes, 0, limit, reader);
  }

  function Prepend(done: seq<Box>, rest: Option<seq<Box>>): Option<seq<Box>> {
    if rest.None? then None else Some(done + rest.value)
  }

  /** Reading one more box moves it from what is left to what is done. */
  lemma ParseStep(bytes: Bytes, offset: nat, limit: nat, reader: Reader, done: seq<Box>)
    requires offset < |bytes|
    ensures limit == 0 || BoxAt(bytes, offset, reader).None? ==> Prepend(done, Parse(bytes, offset, limit, reader)) == None
    ensures limit > 0 && BoxAt(bytes, offset, reader).Some? ==>
              Prepend(done, Parse(bytes, offset, limit, reader)) ==
                Prepend(done + [BoxAt(bytes, offset, reader).value], Parse(bytes, BoxAt(bytes, offset, reader).value.end, limit - 1, reader))
  {
    if limit > 0 && BoxAt(bytes, offset, reader).Some? {
      var box := BoxAt(bytes, offset, reader).value;
      var rest := Parse(bytes, box.end, limit - 1, reader);
      if rest.Some? { assert done + ([box] + rest.value) == (done + [box]) + rest.value; }
    }
  }

  lemma ParseDecides(bytes: Bytes, limit: nat, reader: Reader)
    ensures var r := Parse(bytes, 0, limit, reader);
            if r.Some? then Tiles(bytes, 0, reader, r.value) && |r.value| <= limit else forall boxes :: Tiles(bytes, 0, reader, boxes) ==> |boxes| > limit
  {
    ParseTiles(bytes, 0, limit, reader);
    forall boxes | Tiles(bytes, 0, reader, boxes) && |boxes| <= limit ensures Parse(bytes, 0, limit, reader) == Some(boxes) {
      TilesParse(bytes, 0, limit, reader, boxes);
    }
  }

  /** `boxes`: it terminates, and returns boxes that tile its input exactly, at most 4,096 of them. */
  method Boxes(bytes: Bytes) returns (result: Option<seq<Box>>)
    ensures result == Parse(bytes, 0, MAX_BOXES, Lenient)
    ensures result.Some? ==> Tiles(bytes, 0, Lenient, result.value) && |result.value| <= MAX_BOXES
    ensures result.None? ==> forall boxes :: Tiles(bytes, 0, Lenient, boxes) ==> |boxes| > MAX_BOXES
  {
    ParseDecides(bytes, MAX_BOXES, Lenient);
    result := ReadBoxes(bytes);
  }

  lemma NothingDone(rest: Option<seq<Box>>)
    ensures Prepend([], rest) == rest
  {
    if rest.Some? { assert [] + rest.value == rest.value; }
  }

  method ReadBoxes(bytes: Bytes) returns (result: Option<seq<Box>>)
    ensures result == Parse(bytes, 0, MAX_BOXES, Lenient)
  {
    var offset, found := 0, [];
    NothingDone(Parse(bytes, 0, MAX_BOXES, Lenient));
    while offset < |bytes|
      invariant offset <= |bytes| && |found| <= MAX_BOXES
      invariant Parse(bytes, 0, MAX_BOXES, Lenient) == Prepend(found, Parse(bytes, offset, MAX_BOXES - |found|, Lenient))
    {
      ParseStep(bytes, offset, MAX_BOXES - |found|, Lenient, found);
      if |found| >= MAX_BOXES { return None; }
      var box := BoxAt(bytes, offset, Lenient);
      if box.None? { return None; }
      found := found + [box.value];
      offset := box.value.end;
    }
    assert found + [] == found;
    result := Some(found);
  }

  // ------------------------------------------------------------------ the two readers

  /** The readers agree on one box unless its 64-bit size is zero; then only the lenient one may accept it, as the last. */
  lemma ReadersOfBox(bytes: Bytes, offset: nat)
    ensures BoxAt(bytes, offset, Strict).Some? ==> BoxAt(bytes, offset, Lenient) == BoxAt(bytes, offset, Strict) && !LongToEndAt(bytes, offset)
    ensures BoxAt(bytes, offset, Lenient).Some? && !LongToEndAt(bytes, offset) ==> BoxAt(bytes, offset, Strict) == BoxAt(bytes, offset, Lenient)
    ensures BoxAt(bytes, offset, Lenient).Some? && LongToEndAt(bytes, offset) ==> BoxAt(bytes, offset, Lenient).value.end == |bytes|
  {
  }

  /** None of the boxes runs to the end by a 64-bit size of zero. */
  predicate NoLongToEnd(bytes: Bytes, boxes: seq<Box>) {
    forall i :: 0 <= i < |boxes| ==> !LongToEndAt(bytes, boxes[i].start)
  }

  lemma NoLongCons(bytes: Bytes, box: Box, rest: seq<Box>)
    ensures NoLongToEnd(bytes, [box] + rest) <==> !LongToEndAt(bytes, box.start) && NoLongToEnd(bytes, rest)
  {
    var all := [box] + rest;
    assert all[0] == box;
    if NoLongToEnd(bytes, all) {
      forall i | 0 <= i < |rest| ensures !LongToEndAt(bytes, rest[i].start) { assert all[i + 1] == rest[i]; }
    }
  }

  /** The strict reader accepts exactly what the lenient one accepts without a 64-bit size of zero on the way, as the same boxes. */
  lemma {:induction false} StrictIsLenient(bytes: Bytes, offset: nat, limit: nat)
    requires offset <= |bytes|
    ensures var lenient := Parse(bytes, offset, limit, Lenient);
            Parse(bytes, offset, limit, Strict) == if lenient.Some? && NoLongToEnd(bytes, lenient.value) then lenient else None
    decreases |bytes| - offset
  {
    ReadersOfBox(bytes, offset);
    if offset < |bytes| && limit > 0 && BoxAt(bytes, offset, Lenient).Some? {
      var box := BoxAt(bytes, offset, Lenient).value;
      StrictIsLenient(bytes, box.end, limit - 1);
      var rest := Parse(bytes, box.end, limit - 1, Lenient);
      if rest.Some? { NoLongCons(bytes, box, rest.value); }
    }
  }

  /**
    The two readers agree on an input if and only if the lenient one rejects it or meets no box with 32-bit size one and
    64-bit size zero.
  */
  lemma ReadersAgree(bytes: Bytes, limit: nat)
    ensures var lenient := Parse(bytes, 0, limit, Lenient);
            Parse(bytes, 0, limit, Strict) == lenient <==> (lenient.Some? ==> NoLongToEnd(bytes, lenient.value))
  {
    StrictIsLenient(bytes, 0, limit);
  }

  /** The sixteen bytes of a box that states 1 in 32 bits, the kind `free` and 0 in 64 bits. */
  const ZERO_LONG_SIZE: Bytes := [0, 0, 0, 1, 0x66, 0x72, 0x65, 0x65, 0, 0, 0, 0, 0, 0, 0, 0]

  /** An input on which the readers differ. */
  lemma ZeroLongSizeDiffers()
    ensures Parse(ZERO_LONG_SIZE, 0, MAX_BOXES, Lenient) == Some([Box(0, 16, 16, [0x66, 0x72, 0x65, 0x65])])
    ensures Parse(ZERO_LONG_SIZE, 0, MAX_BOXES, Strict) == None
  {
    var box := Box(0, 16, 16, [0x66, 0x72, 0x65, 0x65]);
    ZeroLongFields();
    assert LongToEndAt(ZERO_LONG_SIZE, box.start);
    assert BoxAt(ZERO_LONG_SIZE, 0, Lenient) == Some(box);
    assert Parse(ZERO_LONG_SIZE, 16, MAX_BOXES - 1, Lenient) == Some([]);
    assert [box] + [] == [box];
    assert [box][0] == box;
    StrictIsLenient(ZERO_LONG_SIZE, 0, MAX_BOXES);
  }

  lemma ZeroLongFields()
    ensures |ZERO_LONG_SIZE| == 16
    ensures Fold(ZERO_LONG_SIZE[0..4]) == 1 && ZERO_LONG_SIZE[4..8] == [0x66, 0x72, 0x65, 0x65] && LongSize(ZERO_LONG_SIZE, 0) == 0
  {
    EightBytes();
    FoldReadsBigEndian(1, 4);
    FoldReadsBigEndian(0, 8);
    BigEndianOne();
    BigEndianZero();
    assert ZERO_LONG_SIZE[0..4] == [0, 0, 0, 1];
    assert ZERO_LONG_SIZE[8..16] == [0, 0, 0, 0, 0, 0, 0, 0];
  }

  lemma BigEndianOne()
    ensures BigEndian(1, 4) == [0, 0, 0, 1]
  {
    assert BigEndian(0, 0) == [];
    assert BigEndian(0, 1) == [0];
    assert BigEndian(0, 2) == [0, 0];
    assert BigEndian(0, 3) == [0, 0, 0];
  }

  lemma BigEndianZero()
    ensures BigEndian(0, 8) == [0, 0, 0, 0, 0, 0, 0, 0]
  {
    assert BigEndian(0, 0) == [];
    assert BigEndian(0, 1) == [0];
    assert BigEndian(0, 2) == [0, 0];
    assert BigEndian(0, 3) == [0, 0, 0];
    assert BigEndian(0, 4) == [0, 0, 0, 0];
    assert BigEndian(0, 5) == [0, 0, 0, 0, 0];
    assert BigEndian(0, 6) == [0, 0, 0, 0, 0, 0];
    assert BigEndian(0, 7) == [0, 0, 0, 0, 0, 0, 0];
  }

  // ------------------------------------------------------------------ serialisation

  /** How a box states its size: in 32 bits, in 64 bits, or - in one of two ways - that it runs to the end. */
  datatype Form = Short | Extended | ToEnd | LongToEnd

  datatype Content = Content(kind: Bytes, data: Bytes, form: Form)

  predicate RunsToEnd(c: Content) { c.form.ToEnd? || c.form.LongToEnd? }

  predicate Writable(c: Content) {
    && |c.kind| == 4
    && (c.form.Short? ==> 8 + |c.data| < U32_LIMIT)
    && (c.form.Extended? ==> 16 + |c.data| < U64_LIMIT)
  }

  /** The 32-bit size field. */
  function SizeField(c: Content): nat {
    match c.form
    case Short => 8 + |c.data|
    case Extended => 1
    case ToEnd => 0
    case LongToEnd => 1
  }

  /** The 64-bit size field, of a box that has one. */
  function LongField(c: Content): nat { if c.form.Extended? then 16 + |c.data| else 0 }

  predicate HasLongField(c: Content) { c.form.Extended? || c.form.LongToEnd? }

  function Header(c: Content): Bytes {
    BigEndian(SizeField(c), 4) + c.kind + (if HasLongField(c) then BigEndian(LongField(c), 8) else [])
  }

  function Write(c: Content): Bytes { Header(c) + c.data }

  function WriteAll(contents: seq<Content>): Bytes {
    if contents == [] then [] else Write(contents[0]) + WriteAll(contents[1..])
  }

  /** Only the last box may run to the end. */
  predicate WritableAll(contents: seq<Content>) {
    && (forall i :: 0 <= i < |contents| ==> Writable(contents[i]))
    && forall i :: 0 <= i < |contents| - 1 ==> !RunsToEnd(contents[i])
  }

  /** Every box states its size in a way a reader accepts. */
  predicate Understood(contents: seq<Content>, reader: Reader) {
    reader.Strict? ==> forall i :: 0 <= i < |contents| ==> !contents[i].form.LongToEnd?
  }

  /** How a parsed box states its size. */
  function FormOf(bytes: Bytes, offset: nat): Form
    requires offset + 8 <= |bytes| && (Fold(bytes[offset..offset + 4]) == 1 ==> offset + 16 <= |bytes|)
  {
    var short := Fold(bytes[offset..offset + 4]);
    if short == 0 then ToEnd
    else if short != 1 then Short
    else if LongSize(bytes, offset) == 0 then LongToEnd
    else Extended
  }

  predicate Inside(bytes: Bytes, box: Box) {
    && box.header >= 8 && box.start + box.header <= box.end <= |bytes|
    && (Fold(bytes[box.start..box.start + 4]) == 1 ==> box.header == 16)
  }

  /** What a parsed box contains. */
  function ContentOf(bytes: Bytes, box: Box): Content
    requires Inside(bytes, box)
  {
    Content(box.kind, bytes[box.start + box.header..box.end], FormOf(bytes, box.start))
  }

  lemma ParsedIsInside(bytes: Bytes, offset: nat, reader: Reader)
    requires BoxAt(bytes, offset, reader).Some?
    ensures Inside(bytes, BoxAt(bytes, offset, reader).value)
    ensures ContentOf(bytes, BoxAt(bytes, offset, reader).value).form.LongToEnd? <==> LongToEndAt(bytes, offset)
  {
  }

  lemma SliceInside(p: Bytes, w: Bytes, s: Bytes, from: nat, to: nat)
    requires from <= to <= |w|
    ensures (p + w + s)[|p| + from..|p| + to] == w[from..to]
  {
  }

  lemma FieldsOf(size: Bytes, kind: Bytes, long: Bytes, data: Bytes)
    requires |size| == 4 && |kind| == 4
    ensures var w := size + kind + long + data;
            && w[0..4] == size && w[4..8] == kind && w[8..8 + |long|] == long && w[8 + |long|..|w|] == data
  {
  }

  /** The fields of a written box. */
  lemma WrittenFields(c: Content)
    requires |c.kind| == 4
    ensures |Header(c)| == (if HasLongField(c) then 16 else 8) && |Write(c)| == |Header(c)| + |c.data|
    ensures Write(c)[0..4] == BigEndian(SizeField(c), 4) && Write(c)[4..8] == c.kind
    ensures HasLongField(c) ==> Write(c)[8..16] == BigEndian(LongField(c), 8)
    ensures Write(c)[|Header(c)|..|Write(c)|] == c.data
  {
    FieldsOf(BigEndian(SizeField(c), 4), c.kind, if HasLongField(c) then BigEndian(LongField(c), 8) else [], c.data);
  }

  /** The fields of a written box, wherever it stands. */
  lemma HeaderReads(p: Bytes, c: Content, s: Bytes)
    requires Writable(c)
    ensures var bytes := p + Write(c) + s;
            && |p| + |Header(c)| + |c.data| <= |bytes| && |Header(c)| == (if HasLongField(c) then 16 else 8)
            && Fold(bytes[|p|..|p| + 4]) == SizeField(c) && bytes[|p| + 4..|p| + 8] == c.kind
            && bytes[|p| + |Header(c)|..|p| + |Write(c)|] == c.data
            && (HasLongField(c) ==> Fold(bytes[|p| + 8..|p| + 16]) == LongField(c))
  {
    WrittenFields(c);
    EightBytes();
    SliceInside(p, Write(c), s, 0, 4);
    FoldReadsBigEndian(SizeField(c), 4);
    SliceInside(p, Write(c), s, 4, 8);
    SliceInside(p, Write(c), s, |Header(c)|, |Write(c)|);
    if HasLongField(c) {
      SliceInside(p, Write(c), s, 8, 16);
      FoldReadsBigEndian(LongField(c), 8);
    }
  }

  /** A written box reads back as itself, whatever surrounds it. */
  lemma WrittenBoxReads(p: Bytes, c: Content, s: Bytes, reader: Reader)
    requires Writable(c) && (RunsToEnd(c) ==> s == []) && (reader.Strict? ==> !c.form.LongToEnd?)
    ensures var bytes := p + Write(c) + s;
            var box := Box(|p|, |Header(c)|, |p| + |Write(c)|, c.kind);
            BoxAt(bytes, |p|, reader) == Some(box) && Inside(bytes, box) && ContentOf(bytes, box) == c
  {
    HeaderReads(p, c, s);
  }

  /** Parsed boxes hold exactly these contents. */
  predicate Hold(bytes: Bytes, boxes: seq<Box>, contents: seq<Content>) {
    |boxes| == |contents| && forall i :: 0 <= i < |boxes| ==> Inside(bytes, boxes[i]) && ContentOf(bytes, boxes[i]) == contents[i]
  }

  lemma HoldCons(bytes: Bytes, box: Box, c: Content, boxes: seq<Box>, contents: seq<Content>)
    requires Inside(bytes, box) && ContentOf(bytes, box) == c && Hold(bytes, boxes, contents)
    ensures Hold(bytes, [box] + boxes, [c] + contents)
  {
  }

  lemma WritableTail(contents: seq<Content>, reader: Reader)
    requires WritableAll(contents) && Understood(contents, reader) && contents != []
    ensures Writable(contents[0]) && WritableAll(contents[1..]) && (RunsToEnd(contents[0]) ==> contents[1..] == [])
    ensures Understood(contents[1..], reader) && (reader.Strict? ==> !contents[0].form.LongToEnd?)
  {
    var rest := contents[1..];
    forall i | 0 <= i < |rest| ensures Writable(rest[i]) && (reader.Strict? ==> !rest[i].form.LongToEnd?) { assert rest[i] == contents[i + 1]; }
    forall i | 0 <= i < |rest| - 1 ensures !RunsToEnd(rest[i]) { assert rest[i] == contents[i + 1]; }
  }

  lemma WritableCons(c: Content, rest: seq<Content>, reader: Reader)
    requires Writable(c) && WritableAll(rest) && (RunsToEnd(c) ==> rest == [])
    requires Understood(rest, reader) && (reader.Strict? ==> !c.form.LongToEnd?)
    ensures WritableAll([c] + rest) && WriteAll([c] + rest) == Write(c) + WriteAll(rest) && Understood([c] + rest, reader)
  {
    assert ([c] + rest)[1..] == rest;
  }

  /** From a written box in front of written boxes, to all of them. */
  lemma WrittenStep(p: Bytes, c: Content, w: Bytes, tail: Bytes, reader: Reader, boxes: seq<Box>, rest: seq<Content>) returns (box: Box)
    requires Writable(c) && w == Write(c) && (RunsToEnd(c) ==> tail == []) && (reader.Strict? ==> !c.form.LongToEnd?)
    requires Tiles(p + w + tail, |p + w|, reader, boxes) && Hold(p + w + tail, boxes, rest)
    ensures Tiles(p + w + tail, |p|, reader, [box] + boxes) && Hold(p + w + tail, [box] + boxes, [c] + rest)
  {
    WrittenBoxReads(p, c, tail, reader);
    box := Box(|p|, |Header(c)|, |p + w|, c.kind);
    TilesCons(p + w + tail, reader, box, boxes);
    HoldCons(p + w + tail, box, c, boxes, rest);
  }

  lemma WriteAllCons(contents: seq<Content>)
    requires contents != []
    ensures WriteAll(contents) == Write(contents[0]) + WriteAll(contents[1..])
    ensures contents[1..] == [] ==> WriteAll(contents[1..]) == []
  {
  }

  lemma JoinThree(a: Bytes, b: Bytes, c: Bytes)
    ensures a + (b + c) == a + b + c
  {
  }

  lemma Uncons(contents: seq<Content>)
    requires contents != []
    ensures contents == [contents[0]] + contents[1..]
  {
  }

  /** The first written box, in front of the tiles of the others. */
  lemma TilesOfFirst(p: Bytes, contents: seq<Content>, reader: Reader, more: seq<Box>) returns (boxes: seq<Box>)
    requires contents != [] && WritableAll(contents) && Understood(contents, reader)
    requires var before, tail := p + Write(contents[0]), WriteAll(contents[1..]);
             Tiles(before + tail, |before|, reader, more) && Hold(before + tail, more, contents[1..])
    ensures Tiles(p + WriteAll(contents), |p|, reader, boxes) && Hold(p + WriteAll(contents), boxes, contents)
  {
    hide *;
    WritableTail(contents, reader);
    WriteAllCons(contents);
    JoinThree(p, Write(contents[0]), WriteAll(contents[1..]));
    Uncons(contents);
    var box := WrittenStep(p, contents[0], Write(contents[0]), WriteAll(contents[1..]), reader, more, contents[1..]);
    boxes := [box] + more;
  }

  /** Written boxes tile the output, whatever stands before them. */
  lemma {:induction false} TilesOfWritten(p: Bytes, contents: seq<Content>, reader: Reader) returns (boxes: seq<Box>)
    requires WritableAll(contents) && Understood(contents, reader)
    ensures Tiles(p + WriteAll(contents), |p|, reader, boxes) && Hold(p + WriteAll(contents), boxes, contents)
    decreases |contents|
  {
    if contents == [] {
      boxes := [];
    } else {
      WritableTail(contents, reader);
      var more := TilesOfWritten(p + Write(contents[0]), contents[1..], reader);
      boxes := TilesOfFirst(p, contents, reader, more);
    }
  }

  /**
    Either reader returns the original list on the serialisation of any list of boxes it understands, at most as many as
    it reads, whatever mixture of sizes they use.
  */
  lemma BoxesReadWritten(contents: seq<Content>, limit: nat, reader: Reader)
    requires WritableAll(contents) && Understood(contents, reader) && |contents| <= limit
    ensures Parse(WriteAll(contents), 0, limit, reader).Some?
    ensures Hold(WriteAll(contents), Parse(WriteAll(contents), 0, limit, reader).value, contents)
  {
    var boxes := TilesOfWritten([], contents, reader);
    assert [] + WriteAll(contents) == WriteAll(contents);
    TilesParse(WriteAll(contents), 0, limit, reader, boxes);
  }

  lemma Concatenate(s: Bytes, a: nat, b: nat, c: nat)
    requires a <= b <= c <= |s|
    ensures s[a..b] + s[b..c] == s[a..c]
  {
  }

  /** A parsed box is exactly the serialisation of its content. */
  lemma ParsedBoxRewrites(bytes: Bytes, offset: nat, reader: Reader)
    requires BoxAt(bytes, offset, reader).Some? && |bytes| < U64_LIMIT
    ensures var b := BoxAt(bytes, offset, reader).value;
            && Inside(bytes, b) && Writable(ContentOf(bytes, b)) && Write(ContentOf(bytes, b)) == bytes[b.start..b.end]
            && (RunsToEnd(ContentOf(bytes, b)) ==> b.end == |bytes|) && (reader.Strict? ==> !ContentOf(bytes, b).form.LongToEnd?)
  {
    var b := BoxAt(bytes, offset, reader).value;
    ParsedIsInside(bytes, offset, reader);
    EightBytes();
    FoldIsSmall(bytes[offset..offset + 4]);
    ParsedHeader(bytes, offset, reader);
    Concatenate(bytes, offset, offset + b.header, b.end);
  }

  /** The header bytes of a parsed box are the header of its content. */
  lemma ParsedHeader(bytes: Bytes, offset: nat, reader: Reader)
    requires BoxAt(bytes, offset, reader).Some?
    ensures var b := BoxAt(bytes, offset, reader).value; Inside(bytes, b) && Header(ContentOf(bytes, b)) == bytes[offset..offset + b.header]
  {
    ParsedIsInside(bytes, offset, reader);
    var b := BoxAt(bytes, offset, reader).value;
    var c := ContentOf(bytes, b);
    assert HasLongField(c) <==> b.header == 16;
    assert SizeField(c) == Fold(bytes[offset..offset + 4]);
    BigEndianOfFold(bytes[offset..offset + 4]);
    Concatenate(bytes, offset, offset + 4, offset + 8);
    if b.header == 16 {
      assert LongField(c) == LongSize(bytes, offset);
      BigEndianOfFold(bytes[offset + 8..offset + 16]);
      Concatenate(bytes, offset, offset + 8, offset + 16);
    }
  }

  /** Whatever a reader accepts is the serialisation of what it returns, in sizes it understands. */
  lemma {:induction false} ParsedRewrites(bytes: Bytes, offset: nat, limit: nat, reader: Reader, boxes: seq<Box>) returns (contents: seq<Content>)
    requires offset <= |bytes| < U64_LIMIT && Parse(bytes, offset, limit, reader) == Some(boxes)
    ensures Hold(bytes, boxes, contents)
    ensures WritableAll(contents) && Understood(contents, reader) && WriteAll(contents) == bytes[offset..]
    decreases |bytes| - offset
  {
    if offset == |bytes| {
      contents := [];
    } else {
      ParseUncons(bytes, offset, limit, reader, boxes);
      var more := ParsedRewrites(bytes, boxes[0].end, limit - 1, reader, boxes[1..]);
      contents := RewriteStep(bytes, offset, reader, boxes[0], boxes[1..], more);
      assert boxes == [boxes[0]] + boxes[1..];
    }
  }

  lemma RewriteStep(bytes: Bytes, offset: nat, reader: Reader, box: Box, rest: seq<Box>, more: seq<Content>) returns (contents: seq<Content>)
    requires |bytes| < U64_LIMIT && BoxAt(bytes, offset, reader) == Some(box) && Hold(bytes, rest, more)
    requires WritableAll(more) && Understood(more, reader) && WriteAll(more) == bytes[box.end..] && (box.end == |bytes| ==> more == [])
    ensures Hold(bytes, [box] + rest, contents) && WritableAll(contents) && Understood(contents, reader) && WriteAll(contents) == bytes[offset..]
  {
    ParsedBoxRewrites(bytes, offset, reader);
    var c := ContentOf(bytes, box);
    HoldCons(bytes, box, c, rest, more);
    WritableCons(c, more, reader);
    Concatenate(bytes, offset, box.end, |bytes|);
    contents := [c] + more;
  }

  lemma ParseUncons(bytes: Bytes, offset: nat, limit: nat, reader: Reader, boxes: seq<Box>)
    requires offset < |bytes| && Parse(bytes, offset, limit, reader) == Some(boxes)
    ensures boxes != [] && limit > 0 && BoxAt(bytes, offset, reader) == Some(boxes[0])
    ensures Parse(bytes, boxes[0].end, limit - 1, reader) == Some(boxes[1..])
    ensures boxes[0].end == |bytes| ==> boxes[1..] == []
  {
    var rest := Parse(bytes, BoxAt(bytes, offset, reader).value.end, limit - 1, reader).value;
    assert boxes == [BoxAt(bytes, offset, reader).value] + rest;
    assert boxes[1..] == rest;
  }

  /** The contents use only the three sizes of section 4.2 of ISO/IEC 14496-12. */
  predicate Standard(contents: seq<Content>) { Understood(contents, Strict) }

  /** What the lenient reader accepts is a standard serialisation if and only if it met no 64-bit size of zero. */
  lemma StandardIffNoLongToEnd(bytes: Bytes, limit: nat, boxes: seq<Box>, contents: seq<Content>)
    requires Parse(bytes, 0, limit, Lenient) == Some(boxes) && Hold(bytes, boxes, contents)
    ensures Standard(contents) <==> NoLongToEnd(bytes, boxes)
  {
    ParseTiles(bytes, 0, limit, Lenient);
    forall i | 0 <= i < |boxes| ensures contents[i].form.LongToEnd? <==> LongToEndAt(bytes, boxes[i].start) {
      assert BoxAt(bytes, boxes[i].start, Lenient) == Some(boxes[i]);
      ParsedIsInside(bytes, boxes[i].start, Lenient);
    }
  }
}

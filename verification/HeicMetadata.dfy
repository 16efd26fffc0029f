/**
  The bounded still-image metadata of a HEIC file (app/src-tauri/src/heic.rs): item properties, item types, the
  primary image's grid and its tiles, read from untrusted boxes.
*/
module HeicMetadata {
  import opened Common
  import opened IsoBoxes

  const SOURCE_LIMIT := 64 * 1024 * 1024
  const META_LIMIT := 1024 * 1024
  const PIXEL_LIMIT := 64_000_000
  const MAX_SIDE := 16384
  const MAX_TOP_LEVEL := 128
  const MAX_ITEMS := 1024
  const MAX_TILES := 512

  const FTYP: Bytes := [0x66, 0x74, 0x79, 0x70]
  const META: Bytes := [0x6d, 0x65, 0x74, 0x61]
  const PITM: Bytes := [0x70, 0x69, 0x74, 0x6d]
  const IPRP: Bytes := [0x69, 0x70, 0x72, 0x70]
  const IPCO: Bytes := [0x69, 0x70, 0x63, 0x6f]
  const IPMA: Bytes := [0x69, 0x70, 0x6d, 0x61]
  const ISPE: Bytes := [0x69, 0x73, 0x70, 0x65]
  const IROT: Bytes := [0x69, 0x72, 0x6f, 0x74]
  const CLAP: Bytes := [0x63, 0x6c, 0x61, 0x70]
  const IINF: Bytes := [0x69, 0x69, 0x6e, 0x66]
  const INFE: Bytes := [0x69, 0x6e, 0x66, 0x65]
  const IREF: Bytes := [0x69, 0x72, 0x65, 0x66]
  const DIMG: Bytes := [0x64, 0x69, 0x6d, 0x67]
  const ILOC: Bytes := [0x69, 0x6c, 0x6f, 0x63]
  const IDAT: Bytes := [0x69, 0x64, 0x61, 0x74]
  const DINF: Bytes := [0x64, 0x69, 0x6e, 0x66]
  const DREF: Bytes := [0x64, 0x72, 0x65, 0x66]
  const URL: Bytes := [0x75, 0x72, 0x6c, 0x20]
  const HVC1: Bytes := [0x68, 0x76, 0x63, 0x31]
  const GRID: Bytes := [0x67, 0x72, 0x69, 0x64]
  const AVIF: Bytes := [0x61, 0x76, 0x69, 0x66]
  const AVIS: Bytes := [0x61, 0x76, 0x69, 0x73]
  const HEVC_BRANDS: set<Bytes> := {[0x68, 0x65, 0x69, 0x63], [0x68, 0x65, 0x69, 0x78], [0x68, 0x65, 0x76, 0x63], [0x68, 0x65, 0x76, 0x78]}

  // ------------------------------------------------------------------ boxes by kind

  datatype Part = Part(kind: Bytes, data: Bytes)

  function PartOf(bytes: Bytes, box: Box): Part {
    Part(box.kind, if box.start + box.header <= box.end <= |bytes| then bytes[box.start + box.header..box.end] else [])
  }

  function ToParts(bytes: Bytes, boxes: seq<Box>): (parts: seq<Part>)
    ensures |parts| == |boxes|
  {
    if boxes == [] then [] else [PartOf(bytes, boxes[0])] + ToParts(bytes, boxes[1..])
  }

  /** The boxes of a container, or none when it does not parse. */
  function PartsOf(bytes: Bytes): Option<seq<Part>> {
    var boxes := Parse(bytes, 0, MAX_BOXES, Lenient);
    if boxes.None? then None else Some(ToParts(bytes, boxes.value))
  }

  /** The data of every box of a kind, in order. */
  function Matching(items: seq<Part>, kind: Bytes): seq<Bytes> {
    if items == [] then []
    else (if items[0].kind == kind then [items[0].data] else []) + Matching(items[1..], kind)
  }

  /** `one`: the data of the only box of a kind. */
  function One(items: seq<Part>, kind: Bytes): Option<Bytes> {
    var matching := Matching(items, kind);
    if |matching| == 1 then Some(matching[0]) else None
  }

  function First(items: seq<Part>, kind: Bytes): Option<Bytes> {
    var matching := Matching(items, kind);
    if matching == [] then None else Some(matching[0])
  }

  predicate OnlyAt(items: seq<Part>, kind: Bytes, i: nat) {
    i < |items| && forall j :: 0 <= j < |items| ==> (items[j].kind == kind <==> j == i)
  }

  predicate Absent(items: seq<Part>, kind: Bytes) {
    forall j :: 0 <= j < |items| ==> items[j].kind != kind
  }

  lemma {:induction false} AbsentMatchesNothing(items: seq<Part>, kind: Bytes)
    ensures Absent(items, kind) <==> Matching(items, kind) == []
  {
    if items != [] {
      AbsentMatchesNothing(items[1..], kind);
      assert items == [items[0]] + items[1..];
    }
  }

  /** If a single box has the kind, `one` returns its data. */
  lemma {:induction false} OnlyBoxIsOne(items: seq<Part>, kind: Bytes, i: nat)
    requires OnlyAt(items, kind, i)
    ensures One(items, kind) == Some(items[i].data)
  {
    var rest := items[1..];
    forall j | 0 <= j < |rest| ensures rest[j] == items[j + 1] { }
    if i == 0 {
      AbsentMatchesNothing(rest, kind);
    } else {
      assert items[0].kind != kind;
      OnlyBoxIsOne(rest, kind, i - 1);
    }
  }

  /** If `one` succeeds, a single box has the kind. */
  lemma {:induction false} OneIsOnlyBox(items: seq<Part>, kind: Bytes) returns (i: nat)
    requires One(items, kind).Some?
    ensures OnlyAt(items, kind, i) && items[i].data == One(items, kind).value
  {
    var rest := items[1..];
    forall j | 0 <= j < |rest| ensures rest[j] == items[j + 1] { }
    if items[0].kind == kind {
      AbsentMatchesNothing(rest, kind);
      i := 0;
    } else {
      var k := OneIsOnlyBox(rest, kind);
      i := k + 1;
    }
  }

  // ------------------------------------------------------------------ sizes

  datatype Size = Size(width: nat, height: nat)

  predicate ValidSize(s: Size) {
    0 < s.width <= MAX_SIDE && 0 < s.height <= MAX_SIDE && s.width * s.height <= PIXEL_LIMIT
  }

  /** `dimensions`: the size an `ispe` property states. */
  function Dimensions(data: Bytes): Option<Size> {
    if |data| != 12 then None
    else
      var size := Size(Fold(data[4..8]), Fold(data[8..12]));
      if size.width == 0 || size.height == 0 || size.width > MAX_SIDE || size.height > MAX_SIDE || size.width * size.height > PIXEL_LIMIT then None
      else Some(size)
  }

  /** Exactly the sizes within the limits are accepted, and none is misread. */
  lemma DimensionsReadsSizes(header: Bytes, size: Size)
    requires |header| == 4 && size.width < U32_LIMIT && size.height < U32_LIMIT
    ensures Dimensions(header + BigEndian(size.width, 4) + BigEndian(size.height, 4)) == if ValidSize(size) then Some(size) else None
  {
    var data := header + BigEndian(size.width, 4) + BigEndian(size.height, 4);
    assert data[4..8] == BigEndian(size.width, 4) && data[8..12] == BigEndian(size.height, 4);
    EightBytes();
    FoldReadsBigEndian(size.width, 4);
    FoldReadsBigEndian(size.height, 4);
  }

  /** The sizes an item's properties state, in order. */
  function IspeOf(properties: seq<Part>, indices: seq<nat>): seq<Bytes>
    requires forall i :: 0 <= i < |indices| ==> indices[i] < |properties|
  {
    if indices == [] then []
    else
      IspeOf(properties, indices[..|indices| - 1]) +
      (if properties[indices[|indices| - 1]].kind == ISPE then [properties[indices[|indices| - 1]].data] else [])
  }

  type Associations = map<nat, seq<nat>>

  predicate InProperties(properties: seq<Part>, associated: Associations) {
    forall id :: id in associated ==> forall i :: 0 <= i < |associated[id]| ==> associated[id][i] < |properties|
  }

  /** An item's size: the one valid `ispe` among its properties. */
  function ItemDimensions(properties: seq<Part>, associated: Associations, id: nat): (size: Option<Size>)
    requires InProperties(properties, associated)
    ensures size.Some? ==> id in associated && ValidSize(size.value)
  {
    if id !in associated then None
    else
      var sizes := IspeOf(properties, associated[id]);
      if |sizes| == 1 then Dimensions(sizes[0]) else None
  }

  // ------------------------------------------------------------------ item types

  datatype ItemType = ItemType(id: nat, kind: Bytes)

  /** One `infe` entry: its item and the item's type. */
  function EntryOf(entry: Part): Option<ItemType> {
    if entry.kind != INFE || entry.data == [] || (entry.data[0] != 2 && entry.data[0] != 3) then None
    else
      var width := if entry.data[0] == 2 then 2 else 4;
      var id, protection := Number(entry.data, 4, width), Number(entry.data, 4 + width, 2);
      if id.None? || protection != Some(0) || |entry.data| < 10 + width then None
      else Some(ItemType(id.value, entry.data[6 + width..10 + width]))
  }

  type Types = map<nat, Bytes>

  /** The types of the first `n` entries; a repeated item is an error. */
  function TypesOfEntries(entries: seq<Part>, n: nat): Option<Types>
    requires n <= |entries|
  {
    if n == 0 then Some(map[])
    else
      var before, entry := TypesOfEntries(entries, n - 1), EntryOf(entries[n - 1]);
      if before.None? || entry.None? || entry.value.id in before.value then None
      else Some(before.value[entry.value.id := entry.value.kind])
  }

  /** The entries an `iinf` box declares. */
  function EntriesOf(info: Bytes): Option<seq<Part>> {
    if info == [] || info[0] > 1 then None
    else
      var width := if info[0] == 0 then 2 else 4;
      var count := Number(info, 4, width);
      if count.None? || count.value > MAX_ITEMS then None
      else
        var entries := PartsOf(info[4 + width..]);
        if entries.None? || |entries.value| != count.value then None else entries
  }

  function TypesOf(root: seq<Part>): Option<Types> {
    var info := One(root, IINF);
    if info.None? || EntriesOf(info.value).None? then None
    else TypesOfEntries(EntriesOf(info.value).value, |EntriesOf(info.value).value|)
  }

  /** One of the first `n` entries declares this type for this item. */
  predicate Declares(entries: seq<Part>, n: nat, item: ItemType)
    requires n <= |entries|
  {
    exists i :: 0 <= i < n && EntryOf(entries[i]) == Some(item)
  }

  predicate DeclaresId(entries: seq<Part>, n: nat, id: nat)
    requires n <= |entries|
  {
    exists i :: 0 <= i < n && EntryOf(entries[i]).Some? && EntryOf(entries[i]).value.id == id
  }

  lemma DeclaresNext(entries: seq<Part>, n: nat, item: ItemType, id: nat)
    requires n < |entries|
    ensures Declares(entries, n + 1, item) <==> Declares(entries, n, item) || EntryOf(entries[n]) == Some(item)
    ensures DeclaresId(entries, n + 1, id) <==> DeclaresId(entries, n, id) || (EntryOf(entries[n]).Some? && EntryOf(entries[n]).value.id == id)
  {
  }

  lemma {:induction false} TypedIdsAreDeclared(entries: seq<Part>, n: nat, id: nat)
    requires n <= |entries| && TypesOfEntries(entries, n).Some?
    ensures DeclaresId(entries, n, id) <==> id in TypesOfEntries(entries, n).value
    ensures |TypesOfEntries(entries, n).value| == n
  {
    if n > 0 {
      TypedIdsAreDeclared(entries, n - 1, id);
      DeclaresNext(entries, n - 1, ItemType(id, []), id);
    }
  }

  lemma DeclaredHasId(entries: seq<Part>, n: nat, item: ItemType)
    requires n <= |entries| && Declares(entries, n, item)
    ensures DeclaresId(entries, n, item.id)
  {
    var i :| 0 <= i < n && EntryOf(entries[i]) == Some(item);
    assert EntryOf(entries[i]).value.id == item.id;
  }

  /** The types are exactly what the entries declare, each item once. */
  lemma {:induction false} TypesAreDeclared(entries: seq<Part>, n: nat, item: ItemType)
    requires n <= |entries| && TypesOfEntries(entries, n).Some?
    ensures Declares(entries, n, item) <==> item.id in TypesOfEntries(entries, n).value && TypesOfEntries(entries, n).value[item.id] == item.kind
  {
    if n > 0 {
      var before, last := TypesOfEntries(entries, n - 1).value, EntryOf(entries[n - 1]).value;
      TypesAreDeclared(entries, n - 1, item);
      TypedIdsAreDeclared(entries, n - 1, last.id);
      DeclaresNext(entries, n - 1, item, item.id);
      if Declares(entries, n - 1, item) { DeclaredHasId(entries, n - 1, item); }
      assert TypesOfEntries(entries, n).value == before[last.id := last.kind];
    }
  }

  /** The entry decodes and is the first for its item. */
  predicate Admissible(entries: seq<Part>, i: nat)
    requires i < |entries|
  {
    EntryOf(entries[i]).Some? && !DeclaresId(entries, i, EntryOf(entries[i]).value.id)
  }

  /** The types are rejected exactly when an entry does not decode or repeats an item. */
  lemma {:induction false} TypesRejected(entries: seq<Part>, n: nat)
    requires n <= |entries|
    ensures TypesOfEntries(entries, n).Some? <==> forall i :: 0 <= i < n ==> Admissible(entries, i)
  {
    if n > 0 {
      TypesRejected(entries, n - 1);
      if TypesOfEntries(entries, n - 1).Some? && EntryOf(entries[n - 1]).Some? {
        TypedIdsAreDeclared(entries, n - 1, EntryOf(entries[n - 1]).value.id);
      }
      assert Admissible(entries, n - 1) <==> EntryOf(entries[n - 1]).Some? && !DeclaresId(entries, n - 1, EntryOf(entries[n - 1]).value.id);
    }
  }

  /** `item_types`. */
  method ItemTypes(root: seq<Part>) returns (types: Option<Types>)
    ensures types == TypesOf(root)
  {
    var info := One(root, IINF);
    if info.None? { return None; }
    var entries := DeclaredEntries(info.value);
    if entries.None? { return None; }
    types := ReadEntries(entries.value);
  }

  method DeclaredEntries(info: Bytes) returns (entries: Option<seq<Part>>)
    ensures entries == EntriesOf(info)
  {
    if info == [] || info[0] > 1 { return None; }
    var width := if info[0] == 0 then 2 else 4;
    var count := Number(info, 4, width);
    if count.None? || count.value > MAX_ITEMS { return None; }
    entries := Children(info[4 + width..]);
    if entries.Some? && |entries.value| != count.value { entries := None; }
  }

  method Children(bytes: Bytes) returns (parts: Option<seq<Part>>)
    ensures parts == PartsOf(bytes)
  {
    var boxes := Boxes(bytes);
    parts := if boxes.None? then None else Some(ToParts(bytes, boxes.value));
  }

  method ReadEntries(entries: seq<Part>) returns (types: Option<Types>)
    ensures types == TypesOfEntries(entries, |entries|)
  {
    var found: Types := map[];
    for i := 0 to |entries|
      invariant TypesOfEntries(entries, i) == Some(found)
    {
      var entry := EntryOf(entries[i]);
      if entry.None? || entry.value.id in found {
        FailureStays(entries, i + 1, |entries|);
        return None;
      }
      found := found[entry.value.id := entry.value.kind];
    }
    types := Some(found);
  }

  lemma {:induction false} FailureStays(entries: seq<Part>, n: nat, m: nat)
    requires n <= m <= |entries| && TypesOfEntries(entries, n).None?
    ensures TypesOfEntries(entries, m).None?
  {
    if n < m { FailureStays(entries, n, m - 1); }
  }

  // ------------------------------------------------------------------ property associations

  /** `version`, width of an association and how many properties there are. */
  datatype Layout = Layout(idSize: nat, indexSize: nat, properties: nat)

  /** The property a stored association names: the top bit only marks it essential, and zero names none. */
  function IndexOf(association: nat, layout: Layout): nat {
    if layout.indexSize == 2 then association % 0x8000 else association % 0x80
  }

  /** Where field `n` of equally sized fields stands. */
  function Stride(start: nat, n: nat, size: nat): nat {
    if n == 0 then start else Stride(start, n - 1, size) + size
  }

  lemma {:induction false} StrideIsProduct(start: nat, n: nat, size: nat)
    ensures Stride(start, n, size) == start + n * size
  {
    if n > 0 {
      StrideIsProduct(start, n - 1, size);
      assert n * size == (n - 1) * size + size;
    }
  }

  /** The first `n` associations of an item, stored from `cursor` on. */
  function ReadIndices(ipma: Bytes, cursor: nat, n: nat, layout: Layout): Option<seq<nat>> {
    if n == 0 then Some([])
    else
      var before := ReadIndices(ipma, cursor, n - 1, layout);
      var association := Number(ipma, Stride(cursor, n - 1, layout.indexSize), layout.indexSize);
      if before.None? || association.None? || IndexOf(association.value, layout) > layout.properties then None
      else if IndexOf(association.value, layout) == 0 then before
      else Some(before.value + [IndexOf(association.value, layout) - 1])
  }

  /** An item's associations and where the next item starts. */
  function ReadItem(ipma: Bytes, cursor: nat, layout: Layout): Option<(nat, seq<nat>, nat)> {
    var id, length := Number(ipma, cursor, layout.idSize), Number(ipma, cursor + layout.idSize, 1);
    if id.None? || length.None? || length.value > 64 then None
    else
      var start := cursor + layout.idSize + 1;
      var indices := ReadIndices(ipma, start, length.value, layout);
      if indices.None? then None else Some((id.value, indices.value, Stride(start, length.value, layout.indexSize)))
  }

  /** The associations of the first `n` items and where they end. */
  function ReadItems(ipma: Bytes, n: nat, layout: Layout): Option<(Associations, nat)> {
    if n == 0 then Some((map[], 8))
    else
      var before := ReadItems(ipma, n - 1, layout);
      if before.None? then None
      else
        var item := ReadItem(ipma, before.value.1, layout);
        if item.None? || item.value.0 in before.value.0 then None
        else Some((before.value.0[item.value.0 := item.value.1], item.value.2))
  }

  function LayoutOf(ipma: Bytes, properties: nat): Option<Layout> {
    if ipma == [] || ipma[0] > 1 || Number(ipma, 0, 4).None? then None
    else Some(Layout(if ipma[0] == 0 then 2 else 4, if Number(ipma, 0, 4).value % 2 == 1 then 2 else 1, properties))
  }

  /** All associations of an `ipma` box, which they must fill exactly. */
  function AssociationsOf(ipma: Bytes, properties: nat): Option<Associations> {
    var layout, count := LayoutOf(ipma, properties), Number(ipma, 4, 4);
    if layout.None? || count.None? || count.value > MAX_ITEMS then None
    else
      var items := ReadItems(ipma, count.value, layout.value);
      if items.None? || items.value.1 != |ipma| then None else Some(items.value.0)
  }

  /** Association `k` of an item, if the box holds it and its property exists: zero names none. */
  function StoredIndex(ipma: Bytes, cursor: nat, k: nat, layout: Layout): Option<nat> {
    var association := Number(ipma, Stride(cursor, k, layout.indexSize), layout.indexSize);
    if association.None? || IndexOf(association.value, layout) > layout.properties then None else Some(IndexOf(association.value, layout))
  }

  predicate Names(index: Option<nat>) { index.Some? && index.value > 0 }

  /** How many of the first `n` associations name a property. */
  function Naming(ipma: Bytes, cursor: nat, n: nat, layout: Layout): nat {
    if n == 0 then 0 else Naming(ipma, cursor, n - 1, layout) + (if Names(StoredIndex(ipma, cursor, n - 1, layout)) then 1 else 0)
  }

  lemma NamingStep(ipma: Bytes, cursor: nat, n: nat, layout: Layout)
    ensures Naming(ipma, cursor, n + 1, layout) == Naming(ipma, cursor, n, layout) + (if Names(StoredIndex(ipma, cursor, n, layout)) then 1 else 0)
    ensures Names(StoredIndex(ipma, cursor, n, layout)) <==> StoredIndex(ipma, cursor, n, layout).Some? && StoredIndex(ipma, cursor, n, layout).value > 0
  {
  }

  predicate AllStored(ipma: Bytes, cursor: nat, n: nat, layout: Layout) {
    forall k :: 0 <= k < n ==> StoredIndex(ipma, cursor, k, layout).Some?
  }

  lemma NoIndices(ipma: Bytes, cursor: nat, layout: Layout)
    ensures ReadIndices(ipma, cursor, 0, layout) == Some([]) && Naming(ipma, cursor, 0, layout) == 0 && AllStored(ipma, cursor, 0, layout)
  {
  }

  /** One more association. */
  lemma IndicesStep(ipma: Bytes, cursor: nat, n: nat, layout: Layout)
    ensures var before, stored, after := ReadIndices(ipma, cursor, n, layout), StoredIndex(ipma, cursor, n, layout), ReadIndices(ipma, cursor, n + 1, layout);
            && (after.Some? <==> before.Some? && stored.Some?)
            && (after.Some? ==> after.value == before.value + if stored.value == 0 then [] else [stored.value - 1])
  {
  }

  lemma AllStoredStep(ipma: Bytes, cursor: nat, n: nat, layout: Layout)
    ensures AllStored(ipma, cursor, n + 1, layout) <==> AllStored(ipma, cursor, n, layout) && StoredIndex(ipma, cursor, n, layout).Some?
  {
  }

  /** An item's associations are read exactly when all of them are stored and name existing properties or none. */
  lemma {:induction false} IndicesRejected(ipma: Bytes, cursor: nat, n: nat, layout: Layout)
    ensures ReadIndices(ipma, cursor, n, layout).Some? <==> AllStored(ipma, cursor, n, layout)
  {
    hide *;
    if n == 0 {
      NoIndices(ipma, cursor, layout);
    } else {
      IndicesRejected(ipma, cursor, n - 1, layout);
      IndicesStep(ipma, cursor, n - 1, layout);
      AllStoredStep(ipma, cursor, n - 1, layout);
    }
  }

  /** What is read are the stored indices that name a property, less one, in the order they are stored. */
  lemma {:induction false} IndicesAreStored(ipma: Bytes, cursor: nat, n: nat, layout: Layout, k: nat)
    requires ReadIndices(ipma, cursor, n, layout).Some?
    ensures |ReadIndices(ipma, cursor, n, layout).value| == Naming(ipma, cursor, n, layout)
    ensures k < n && Names(StoredIndex(ipma, cursor, k, layout)) ==>
              && Naming(ipma, cursor, k, layout) < Naming(ipma, cursor, n, layout)
              && ReadIndices(ipma, cursor, n, layout).value[Naming(ipma, cursor, k, layout)] == StoredIndex(ipma, cursor, k, layout).value - 1
  {
    hide *;
    if n == 0 {
      NoIndices(ipma, cursor, layout);
    } else {
      NamingStep(ipma, cursor, n - 1, layout);
      IndicesStep(ipma, cursor, n - 1, layout);
      IndicesAreStored(ipma, cursor, n - 1, layout, k);
    }
  }

  /** Where item `k` of an `ipma` box starts, if the items before it can be read. */
  function ItemStart(ipma: Bytes, k: nat, layout: Layout): Option<nat> {
    if k == 0 then Some(8)
    else
      var before := ItemStart(ipma, k - 1, layout);
      if before.None? || ReadItem(ipma, before.value, layout).None? then None
      else Some(ReadItem(ipma, before.value, layout).value.2)
  }

  /** Item `k` of an `ipma` box and its associations. */
  function ItemOf(ipma: Bytes, k: nat, layout: Layout): Option<(nat, seq<nat>)> {
    var start := ItemStart(ipma, k, layout);
    if start.None? || ReadItem(ipma, start.value, layout).None? then None
    else Some((ReadItem(ipma, start.value, layout).value.0, ReadItem(ipma, start.value, layout).value.1))
  }

  /** One of the first `n` items is this one, with these associations. */
  predicate Lists(ipma: Bytes, n: nat, layout: Layout, id: nat, indices: seq<nat>) {
    exists k :: 0 <= k < n && ItemOf(ipma, k, layout) == Some((id, indices))
  }

  predicate ListsId(ipma: Bytes, n: nat, layout: Layout, id: nat) {
    exists k :: 0 <= k < n && ItemOf(ipma, k, layout).Some? && ItemOf(ipma, k, layout).value.0 == id
  }

  lemma ListsNext(ipma: Bytes, n: nat, layout: Layout, id: nat, indices: seq<nat>)
    ensures Lists(ipma, n + 1, layout, id, indices) <==> Lists(ipma, n, layout, id, indices) || ItemOf(ipma, n, layout) == Some((id, indices))
    ensures ListsId(ipma, n + 1, layout, id) <==>
              ListsId(ipma, n, layout, id) || (ItemOf(ipma, n, layout).Some? && ItemOf(ipma, n, layout).value.0 == id)
    ensures Lists(ipma, n, layout, id, indices) ==> ListsId(ipma, n, layout, id)
  {
    if Lists(ipma, n, layout, id, indices) {
      var k :| 0 <= k < n && ItemOf(ipma, k, layout) == Some((id, indices));
      assert ItemOf(ipma, k, layout).value.0 == id;
    }
  }

  lemma {:induction false} ItemsStart(ipma: Bytes, n: nat, layout: Layout)
    requires ReadItems(ipma, n, layout).Some?
    ensures ItemStart(ipma, n, layout) == Some(ReadItems(ipma, n, layout).value.1)
    ensures n > 0 ==> ReadItems(ipma, n - 1, layout).Some? && ItemOf(ipma, n - 1, layout).Some?
  {
    if n > 0 { ItemsStart(ipma, n - 1, layout); }
  }

  lemma {:induction false} ListedIds(ipma: Bytes, n: nat, layout: Layout, id: nat)
    requires ReadItems(ipma, n, layout).Some?
    ensures ListsId(ipma, n, layout, id) <==> id in ReadItems(ipma, n, layout).value.0
  {
    if n > 0 {
      ItemsStart(ipma, n - 1, layout);
      ListedIds(ipma, n - 1, layout, id);
      ListsNext(ipma, n - 1, layout, id, []);
    }
  }

  /** The associations are exactly what the items of the box list, each item once. */
  lemma {:induction false} AssociationsAreListed(ipma: Bytes, n: nat, layout: Layout, id: nat, indices: seq<nat>)
    requires ReadItems(ipma, n, layout).Some?
    ensures var associated := ReadItems(ipma, n, layout).value.0;
            Lists(ipma, n, layout, id, indices) <==> id in associated && associated[id] == indices
  {
    if n > 0 {
      ItemsStart(ipma, n - 1, layout);
      AssociationsAreListed(ipma, n - 1, layout, id, indices);
      ListsNext(ipma, n - 1, layout, id, indices);
      ListedIds(ipma, n - 1, layout, id);
    }
  }

  /** The item decodes and is the first of its id. */
  predicate GoodItem(ipma: Bytes, k: nat, layout: Layout) {
    ItemOf(ipma, k, layout).Some? && !ListsId(ipma, k, layout, ItemOf(ipma, k, layout).value.0)
  }

  predicate AllGoodItems(ipma: Bytes, n: nat, layout: Layout) {
    forall k :: 0 <= k < n ==> GoodItem(ipma, k, layout)
  }

  lemma NoItems(ipma: Bytes, layout: Layout)
    ensures ReadItems(ipma, 0, layout) == Some((map[], 8)) && AllGoodItems(ipma, 0, layout)
  {
  }

  lemma AllGoodStep(ipma: Bytes, n: nat, layout: Layout)
    ensures AllGoodItems(ipma, n + 1, layout) <==> AllGoodItems(ipma, n, layout) && GoodItem(ipma, n, layout)
  {
  }

  lemma ItemsStep(ipma: Bytes, n: nat, layout: Layout)
    requires ReadItems(ipma, n, layout).Some?
    ensures ReadItems(ipma, n + 1, layout).Some? <==> GoodItem(ipma, n, layout)
  {
    ItemsStart(ipma, n, layout);
    if ItemOf(ipma, n, layout).Some? { ListedIds(ipma, n, layout, ItemOf(ipma, n, layout).value.0); }
  }

  /** The associations are rejected exactly when an item does not decode or is repeated. */
  lemma {:induction false} AssociationsRejected(ipma: Bytes, n: nat, layout: Layout)
    ensures ReadItems(ipma, n, layout).Some? <==> AllGoodItems(ipma, n, layout)
  {
    hide *;
    if n == 0 {
      NoItems(ipma, layout);
    } else {
      AssociationsRejected(ipma, n - 1, layout);
      AllGoodStep(ipma, n - 1, layout);
      if ReadItems(ipma, n - 1, layout).Some? { ItemsStep(ipma, n - 1, layout); } else { ItemsFail(ipma, n - 1, n, layout); }
    }
  }

  /** An `ipma` box that its items fill exactly, each decoding and none repeated. */
  predicate WellAssociated(ipma: Bytes, properties: nat, n: nat) {
    var layout := LayoutOf(ipma, properties);
    && layout.Some? && Number(ipma, 4, 4) == Some(n) && n <= MAX_ITEMS
    && AllGoodItems(ipma, n, layout.value)
    && ItemStart(ipma, n, layout.value) == Some(|ipma|)
  }

  /** Associations are found exactly in well-associated boxes, and are then exactly what the items list. */
  lemma AssociationsMean(ipma: Bytes, properties: nat, id: nat, indices: seq<nat>)
    ensures AssociationsOf(ipma, properties).Some? <==> exists n :: WellAssociated(ipma, properties, n)
    ensures AssociationsOf(ipma, properties).Some? ==>
              var associated := AssociationsOf(ipma, properties).value;
              Lists(ipma, Number(ipma, 4, 4).value, LayoutOf(ipma, properties).value, id, indices) <==> id in associated && associated[id] == indices
  {
    var layout, count := LayoutOf(ipma, properties), Number(ipma, 4, 4);
    if layout.Some? && count.Some? {
      AssociationsRejected(ipma, count.value, layout.value);
      if ReadItems(ipma, count.value, layout.value).Some? {
        ItemsStart(ipma, count.value, layout.value);
        AssociationsAreListed(ipma, count.value, layout.value, id, indices);
        if AssociationsOf(ipma, properties).Some? { assert WellAssociated(ipma, properties, count.value); }
      }
    }
  }

  lemma {:induction false} IndicesInside(ipma: Bytes, cursor: nat, n: nat, layout: Layout)
    ensures var r := ReadIndices(ipma, cursor, n, layout); r.Some? ==> forall i :: 0 <= i < |r.value| ==> r.value[i] < layout.properties
  {
    if n > 0 { IndicesInside(ipma, cursor, n - 1, layout); }
  }

  lemma ItemInside(ipma: Bytes, cursor: nat, layout: Layout)
    ensures var r := ReadItem(ipma, cursor, layout); r.Some? ==> forall i :: 0 <= i < |r.value.1| ==> r.value.1[i] < layout.properties
  {
    var length := Number(ipma, cursor + layout.idSize, 1);
    if length.Some? { IndicesInside(ipma, cursor + layout.idSize + 1, length.value, layout); }
  }

  /** Every property an item names exists. */
  lemma {:induction false} AssociationsInside(ipma: Bytes, n: nat, layout: Layout, properties: seq<Part>)
    requires layout.properties == |properties|
    ensures var r := ReadItems(ipma, n, layout); r.Some? ==> InProperties(properties, r.value.0)
  {
    if n > 0 {
      AssociationsInside(ipma, n - 1, layout, properties);
      var before := ReadItems(ipma, n - 1, layout);
      if before.Some? { ItemInside(ipma, before.value.1, layout); }
    }
  }

  method ItemIndices(ipma: Bytes, cursor: nat, n: nat, layout: Layout) returns (indices: Option<seq<nat>>)
    ensures indices == ReadIndices(ipma, cursor, n, layout)
  {
    var found: seq<nat> := [];
    for k := 0 to n
      invariant ReadIndices(ipma, cursor, k, layout) == Some(found)
    {
      var association := Number(ipma, Stride(cursor, k, layout.indexSize), layout.indexSize);
      if association.None? || IndexOf(association.value, layout) > layout.properties {
        IndicesFail(ipma, cursor, k + 1, n, layout);
        return None;
      }
      if IndexOf(association.value, layout) != 0 { found := found + [IndexOf(association.value, layout) - 1]; }
    }
    indices := Some(found);
  }

  lemma {:induction false} IndicesFail(ipma: Bytes, cursor: nat, k: nat, n: nat, layout: Layout)
    requires k <= n && ReadIndices(ipma, cursor, k, layout).None?
    ensures ReadIndices(ipma, cursor, n, layout).None?
  {
    if k < n { IndicesFail(ipma, cursor, k, n - 1, layout); }
  }

  lemma {:induction false} ItemsFail(ipma: Bytes, k: nat, n: nat, layout: Layout)
    requires k <= n && ReadItems(ipma, k, layout).None?
    ensures ReadItems(ipma, n, layout).None?
  {
    if k < n { ItemsFail(ipma, k, n - 1, layout); }
  }

  method AllItems(ipma: Bytes, count: nat, layout: Layout) returns (items: Option<(Associations, nat)>)
    ensures items == ReadItems(ipma, count, layout)
  {
    var cursor, associated: Associations := 8, map[];
    for k := 0 to count
      invariant ReadItems(ipma, k, layout) == Some((associated, cursor))
    {
      var item := OneItem(ipma, cursor, layout);
      if item.None? || item.value.0 in associated {
        ItemsFail(ipma, k + 1, count, layout);
        return None;
      }
      associated, cursor := associated[item.value.0 := item.value.1], item.value.2;
    }
    items := Some((associated, cursor));
  }

  method OneItem(ipma: Bytes, cursor: nat, layout: Layout) returns (item: Option<(nat, seq<nat>, nat)>)
    ensures item == ReadItem(ipma, cursor, layout)
  {
    var id, length := Number(ipma, cursor, layout.idSize), Number(ipma, cursor + layout.idSize, 1);
    if id.None? || length.None? || length.value > 64 { return None; }
    var start := cursor + layout.idSize + 1;
    var indices := ItemIndices(ipma, start, length.value, layout);
    item := if indices.None? then None else Some((id.value, indices.value, Stride(start, length.value, layout.indexSize)));
  }

  /** The property associations, each of an existing property. */
  method Associate(ipma: Bytes, properties: seq<Part>) returns (associated: Option<Associations>)
    ensures associated == AssociationsOf(ipma, |properties|)
    ensures associated.Some? ==> InProperties(properties, associated.value)
  {
    var layout, count := LayoutOf(ipma, |properties|), Number(ipma, 4, 4);
    if layout.None? || count.None? || count.value > MAX_ITEMS { return None; }
    var items := AllItems(ipma, count.value, layout.value);
    AssociationsInside(ipma, count.value, layout.value, properties);
    if items.None? || items.value.1 != |ipma| { return None; }
    associated := Some(items.value.0);
  }

  // ------------------------------------------------------------------ the primary image's grid

  /** External data references are never followed: there is one, and it says that the data is in this file. */
  predicate DataIsLocal(root: seq<Part>) {
    var dinf := First(root, DINF);
    dinf.None? ||
    (var children := PartsOf(dinf.value);
     children.Some? &&
     (var dref := One(children.value, DREF);
      dref.Some? && Number(dref.value, 4, 4) == Some(1) &&
      (var references := PartsOf(dref.value[8..]);
       references.Some? && references.value == [Part(URL, [0, 0, 0, 1])])))
  }

  function OneMore(count: nat): nat { count + 1 }

  /** A grid description: rows and columns less one, and an output size that must be the item's own. */
  predicate IsGrid(payload: Bytes, size: Size, tiles: nat) {
    && |payload| >= 8 && payload[0] == 0 && payload[1] <= 1
    && (var width := if payload[1] == 1 then 4 else 2;
        |payload| == 4 + width * 2 && size == Size(Fold(payload[4..4 + width]), Fold(payload[4 + width..4 + width + width])))
    && tiles == OneMore(payload[2]) * OneMore(payload[3]) && tiles <= MAX_TILES
  }

  datatype Iloc = Iloc(version: nat, offsetSize: nat, lengthSize: nat, baseSize: nat, indexSize: nat, idSize: nat)

  function IlocOf(data: Bytes): Option<Iloc> {
    if |data| < 6 || data[0] > 2 then None
    else
      var version := data[0];
      var iloc := Iloc(version, data[4] / 16, data[4] % 16, data[5] / 16, if version > 0 then data[5] % 16 else 0, if version < 2 then 2 else 4);
      if iloc.offsetSize > 8 || iloc.lengthSize > 8 || iloc.baseSize > 8 || iloc.indexSize > 8 then None else Some(iloc)
  }

  /** Where an extent lies: it must not be empty, overflow or reach past its bound. */
  function ExtentAt(data: Bytes, cursor: nat, iloc: Iloc, base: nat, bound: nat): (extent: Option<(nat, nat)>)
    ensures extent.Some? ==> base <= extent.value.0 < extent.value.1 <= bound
  {
    var offset := Number(data, cursor, iloc.offsetSize);
    var length := Number(data, cursor + iloc.offsetSize, iloc.lengthSize);
    if offset.None? || length.None? || base + offset.value > U64_MAX || base + offset.value + length.value > U64_MAX then None
    else if length.value == 0 || base + offset.value + length.value > bound then None
    else Some((base + offset.value, base + offset.value + length.value))
  }

  /** The header of one item's location; its extents follow from `next` on. */
  datatype Location = Location(id: nat, construction: nat, base: nat, extents: nat, next: nat)

  function LocationAt(data: Bytes, cursor: nat, iloc: Iloc): (location: Option<Location>)
    ensures location.Some? ==> location.value.construction <= 1 && 0 < location.value.extents <= 64
  {
    var id := Number(data, cursor, iloc.idSize);
    var after := cursor + iloc.idSize + (if iloc.version > 0 then 2 else 0);
    var construction := if iloc.version > 0 then Number(data, cursor + iloc.idSize, 2) else Some(0);
    var reference, base := Number(data, after, 2), Number(data, after + 2, iloc.baseSize);
    var extents := Number(data, after + 2 + iloc.baseSize, 2);
    if id.None? || construction.None? || construction.value > 1 || reference != Some(0) || base.None? || extents.None? then None
    else if extents.value == 0 || extents.value > 64 then None
    else Some(Location(id.value, construction.value, base.value, extents.value, after + 4 + iloc.baseSize))
  }

  /** Everything location entries are read against. */
  datatype Sources = Sources(file: Bytes, idat: Option<Bytes>, data: Bytes, primary: nat, types: Types)

  /** What an item's extents are positions in. */
  function AreaOf(src: Sources, l: Location): Option<Bytes> {
    if l.construction == 1 then src.idat else Some(src.file)
  }

  /** Where the fields of extent `k` start, and the end of the entry for the last one past it. */
  function ExtentStart(l: Location, iloc: Iloc, k: nat): nat {
    Stride(l.next, k, iloc.indexSize + iloc.offsetSize + iloc.lengthSize)
  }

  /** Where extent `k` of an item lies in its area. */
  function Extent(src: Sources, iloc: Iloc, l: Location, k: nat): (extent: Option<(nat, nat)>)
    ensures extent.Some? ==> AreaOf(src, l).Some? && extent.value.0 < extent.value.1 <= |AreaOf(src, l).value|
  {
    if AreaOf(src, l).None? then None
    else ExtentAt(src.data, ExtentStart(l, iloc, k) + iloc.indexSize, iloc, l.base, |AreaOf(src, l).value|)
  }

  predicate IsGridItem(src: Sources, l: Location) {
    l.id == src.primary && l.id in src.types && src.types[l.id] == GRID
  }

  /** All extents lie within their area; a grid description is a single one of 8 or 12 bytes. */
  predicate Readable(src: Sources, iloc: Iloc, l: Location) {
    && (forall k :: 0 <= k < l.extents ==> Extent(src, iloc, l, k).Some?)
    && (IsGridItem(src, l) && l.extents > 0 ==>
          var extent := Extent(src, iloc, l, 0).value; l.extents == 1 && extent.1 - extent.0 in {8, 12})
  }

  /** The bytes of an item's first extent. */
  function FirstExtent(src: Sources, iloc: Iloc, l: Location): Bytes
    requires Extent(src, iloc, l, 0).Some?
  {
    var extent := Extent(src, iloc, l, 0).value;
    AreaOf(src, l).value[extent.0..extent.1]
  }

  /** One item's extents: all lie within their area, and the grid's only one is read. */
  method ReadExtents(src: Sources, iloc: Iloc, l: Location) returns (ok: bool, cursor: nat, payload: Option<Bytes>)
    requires l.extents > 0 && (iloc.version == 0 ==> iloc.indexSize == 0)
    ensures ok <==> Readable(src, iloc, l)
    ensures ok ==> cursor == ExtentStart(l, iloc, l.extents)
    ensures ok ==> payload == if IsGridItem(src, l) then Some(FirstExtent(src, iloc, l)) else None
  {
    ok, cursor, payload := false, l.next, None;
    var area := AreaOf(src, l);
    if area.None? {
      assert Extent(src, iloc, l, 0).None?;
      return;
    }
    for k := 0 to l.extents
      invariant cursor == ExtentStart(l, iloc, k)
      invariant forall i :: 0 <= i < k ==> Extent(src, iloc, l, i).Some?
      invariant IsGridItem(src, l) && k > 0 ==> l.extents == 1 && |FirstExtent(src, iloc, l)| in {8, 12}
      invariant payload == if IsGridItem(src, l) && k > 0 then Some(FirstExtent(src, iloc, l)) else None
    {
      if iloc.version > 0 { cursor := cursor + iloc.indexSize; }
      var extent := ExtentAt(src.data, cursor, iloc, l.base, |area.value|);
      assert extent == Extent(src, iloc, l, k);
      cursor := cursor + iloc.offsetSize + iloc.lengthSize;
      if extent.None? { return; }
      if IsGridItem(src, l) {
        var length := extent.value.1 - extent.value.0;
        if l.extents != 1 || (length != 8 && length != 12) { return; }
        payload := Some(area.value[extent.value.0..extent.value.1]);
      }
    }
    ok := true;
  }

  /** Where location `k` starts: the first after the box's header, the others where the one before ends. */
  function LocationStart(iloc: Iloc, locations: seq<Location>, k: nat): nat
    requires k <= |locations|
  {
    if k == 0 then 6 + iloc.idSize else ExtentStart(locations[k - 1], iloc, locations[k - 1].extents)
  }

  /** Location `k` is what its entry says, of a typed item not located before, and its extents can be read. */
  predicate GoodLocation(src: Sources, iloc: Iloc, locations: seq<Location>, k: nat)
    requires k < |locations|
  {
    && LocationAt(src.data, LocationStart(iloc, locations, k), iloc) == Some(locations[k])
    && locations[k].id in src.types && (forall j :: 0 <= j < k ==> locations[j].id != locations[k].id)
    && Readable(src, iloc, locations[k])
  }

  /** The locations of an `iloc` box: at most 1,024 good ones that fill it exactly. */
  predicate Locations(src: Sources, locations: seq<Location>) {
    var iloc := IlocOf(src.data);
    && iloc.Some? && Number(src.data, 6, iloc.value.idSize) == Some(|locations|) && |locations| <= MAX_ITEMS
    && (forall k :: 0 <= k < |locations| ==> GoodLocation(src, iloc.value, locations, k))
    && LocationStart(iloc.value, locations, |locations|) == |src.data|
  }

  /** The description of the primary item's grid, if one of its locations holds one. */
  predicate Describes(src: Sources, iloc: Iloc, locations: seq<Location>, payload: Option<Bytes>) {
    if payload.None? then forall k :: 0 <= k < |locations| ==> !IsGridItem(src, locations[k])
    else exists k :: 0 <= k < |locations| && IsGridItem(src, locations[k])
                     && Extent(src, iloc, locations[k], 0).Some? && payload.value == FirstExtent(src, iloc, locations[k])
  }

  lemma GoodPrefix(src: Sources, iloc: Iloc, shorter: seq<Location>, longer: seq<Location>, k: nat)
    requires shorter <= longer && k < |shorter|
    ensures GoodLocation(src, iloc, shorter, k) <==> GoodLocation(src, iloc, longer, k)
  {
    forall j | 0 <= j < |shorter| ensures shorter[j] == longer[j] { }
  }

  /** Whatever the locations of the box are, they continue with the next entry, and it must be good. */
  lemma NextLocation(src: Sources, iloc: Iloc, done: seq<Location>, locations: seq<Location>)
    requires IlocOf(src.data) == Some(iloc) && Locations(src, locations) && done <= locations && |done| < |locations|
    ensures LocationAt(src.data, LocationStart(iloc, done, |done|), iloc).Some?
    ensures var longer := done + [LocationAt(src.data, LocationStart(iloc, done, |done|), iloc).value];
            longer <= locations && GoodLocation(src, iloc, longer, |done|)
  {
    var k := |done|;
    assert GoodLocation(src, iloc, locations, k);
    assert LocationStart(iloc, done, k) == LocationStart(iloc, locations, k) by {
      if k > 0 { assert done[k - 1] == locations[k - 1]; }
    }
    GoodPrefix(src, iloc, done + [locations[k]], locations, k);
  }

  /** The locations read so far, and that the box has no others. */
  ghost predicate Locating(src: Sources, iloc: Iloc, done: seq<Location>, cursor: nat, ids: set<nat>, payload: Option<Bytes>) {
    && (forall k :: 0 <= k < |done| ==> GoodLocation(src, iloc, done, k)) && cursor == LocationStart(iloc, done, |done|)
    && (forall id :: id in ids <==> exists k :: 0 <= k < |done| && done[k].id == id)
    && Describes(src, iloc, done, payload)
    && forall other :: Locations(src, other) ==> done <= other
  }

  lemma LocatingMore(src: Sources, iloc: Iloc, done: seq<Location>, cursor: nat, ids: set<nat>, payload: Option<Bytes>, l: Location, found: Option<Bytes>)
    requires Locating(src, iloc, done, cursor, ids, payload) && IlocOf(src.data) == Some(iloc)
    requires Number(src.data, 6, iloc.idSize).Some? && |done| < Number(src.data, 6, iloc.idSize).value
    requires LocationAt(src.data, cursor, iloc) == Some(l) && l.id !in ids && l.id in src.types && Readable(src, iloc, l)
    requires found == if IsGridItem(src, l) then Some(FirstExtent(src, iloc, l)) else None
    ensures IsGridItem(src, l) ==> payload.None?
    ensures Locating(src, iloc, done + [l], ExtentStart(l, iloc, l.extents), ids + {l.id}, if found.Some? then found else payload)
  {
    var longer := done + [l];
    forall k | 0 <= k < |longer| ensures GoodLocation(src, iloc, longer, k) {
      if k < |done| { GoodPrefix(src, iloc, done, longer, k); }
    }
    forall other | Locations(src, other) ensures longer <= other { NextLocation(src, iloc, done, other); }
    forall id ensures id in ids + {l.id} <==> exists k :: 0 <= k < |longer| && longer[k].id == id {
      if id in ids {
        var k :| 0 <= k < |done| && done[k].id == id;
        assert longer[k].id == id;
      }
      assert longer[|done|].id == l.id;
    }
    DescribesMore(src, iloc, done, payload, l, found);
  }

  lemma DescribesMore(src: Sources, iloc: Iloc, done: seq<Location>, payload: Option<Bytes>, l: Location, found: Option<Bytes>)
    requires Describes(src, iloc, done, payload) && Readable(src, iloc, l) && l.extents > 0
    requires found == if IsGridItem(src, l) then Some(FirstExtent(src, iloc, l)) else None
    ensures Describes(src, iloc, done + [l], if found.Some? then found else payload)
  {
    var longer := done + [l];
    assert longer[|done|] == l;
    if found.None? && payload.Some? {
      var k :| 0 <= k < |done| && IsGridItem(src, done[k]) && Extent(src, iloc, done[k], 0).Some? && payload.value == FirstExtent(src, iloc, done[k]);
      assert longer[k] == done[k];
    }
  }

  lemma RepeatedIsBad(src: Sources, iloc: Iloc, done: seq<Location>, l: Location)
    requires exists k :: 0 <= k < |done| && done[k].id == l.id
    ensures !GoodLocation(src, iloc, done + [l], |done|)
  {
    var k :| 0 <= k < |done| && done[k].id == l.id;
    assert (done + [l])[k].id == l.id;
  }

  /** An entry that is not good means that the box has no locations. */
  lemma NoLocations(src: Sources, iloc: Iloc, done: seq<Location>, cursor: nat, ids: set<nat>, payload: Option<Bytes>)
    requires Locating(src, iloc, done, cursor, ids, payload) && IlocOf(src.data) == Some(iloc)
    requires Number(src.data, 6, iloc.idSize).Some?
    requires
      if |done| < Number(src.data, 6, iloc.idSize).value then
        var l := LocationAt(src.data, cursor, iloc); l.None? || l.value.id in ids || l.value.id !in src.types || !Readable(src, iloc, l.value)
      else |done| == Number(src.data, 6, iloc.idSize).value && cursor != |src.data|
    ensures forall other :: !Locations(src, other)
  {
    var l := LocationAt(src.data, cursor, iloc);
    if l.Some? && l.value.id in ids { RepeatedIsBad(src, iloc, done, l.value); }
    forall other ensures !Locations(src, other) {
      if Locations(src, other) && |done| < |other| {
        NextLocation(src, iloc, done, other);
      }
    }
  }

  /** All item locations, which must fill the box exactly; the grid description is read on the way. */
  method ReadLocations(src: Sources) returns (ok: bool, payload: Option<Bytes>, ghost locations: seq<Location>)
    ensures ok <==> exists other :: Locations(src, other)
    ensures ok ==> Locations(src, locations) && Describes(src, IlocOf(src.data).value, locations, payload)
    ensures forall other :: Locations(src, other) ==> ok && other == locations
  {
    ok, payload, locations := false, None, [];
    var iloc := IlocOf(src.data);
    if iloc.None? { return; }
    var count := Number(src.data, 6, iloc.value.idSize);
    if count.None? || count.value > MAX_ITEMS { return; }
    var cursor: nat, ids: set<nat> := 6 + iloc.value.idSize, {};
    for k := 0 to count.value
      invariant |locations| == k && Locating(src, iloc.value, locations, cursor, ids, payload)
    {
      var read, l, next, found := ReadLocation(src, iloc.value, count.value, locations, cursor, ids, payload);
      if !read { return; }
      LocatingMore(src, iloc.value, locations, cursor, ids, payload, l, found);
      locations, cursor, ids := locations + [l], next, ids + {l.id};
      // ids are distinct, so there is no description yet when one is found
      if found.Some? { payload := found; }
    }
    if cursor != |src.data| {
      NoLocations(src, iloc.value, locations, cursor, ids, payload);
      return;
    }
    assert Locations(src, locations);
    ok := true;
  }

  /** Read one location entry with its extents. */
  method ReadLocation(src: Sources, iloc: Iloc, count: nat, ghost done: seq<Location>, cursor: nat, ids: set<nat>, ghost payload: Option<Bytes>)
    returns (ok: bool, l: Location, next: nat, found: Option<Bytes>)
    requires Locating(src, iloc, done, cursor, ids, payload) && IlocOf(src.data) == Some(iloc)
    requires Number(src.data, 6, iloc.idSize) == Some(count) && |done| < count
    ensures ok ==>
              && LocationAt(src.data, cursor, iloc) == Some(l) && l.id !in ids && l.id in src.types && Readable(src, iloc, l)
              && next == ExtentStart(l, iloc, l.extents) && found == if IsGridItem(src, l) then Some(FirstExtent(src, iloc, l)) else None
    ensures !ok ==> forall other :: !Locations(src, other)
  {
    l := Location(0, 0, 0, 0, 0);
    ok, next, found := false, 0, None;
    var location := LocationAt(src.data, cursor, iloc);
    if location.None? || location.value.id in ids || location.value.id !in src.types {
      NoLocations(src, iloc, done, cursor, ids, payload);
      return;
    }
    l := location.value;
    ok, next, found := ReadExtents(src, iloc, l);
    if !ok { NoLocations(src, iloc, done, cursor, ids, payload); }
  }

  datatype Layered = Rejected | Single | Tiled(tiles: nat)

  /** The number of tiles a grid description promises, if it is one of this output size. */
  method CountTiles(payload: Bytes, size: Size) returns (tiles: Option<nat>)
    requires |payload| in {8, 12}
    ensures tiles.Some? ==> IsGrid(payload, size, tiles.value)
    ensures tiles.None? ==> forall n :: !IsGrid(payload, size, n)
  {
    if payload[0] != 0 || payload[1] > 1 { return None; }
    var width := if payload[1] % 2 != 0 then 4 else 2;
    if |payload| != 4 + width * 2 || Size(Fold(payload[4..4 + width]), Fold(payload[4 + width..4 + width + width])) != size { return None; }
    var count := OneMore(payload[2]) * OneMore(payload[3]);
    tiles := if count > MAX_TILES then None else Some(count);
  }

  /** What the locations are read against in a file. */
  function SourcesOf(file: Bytes, root: seq<Part>, primary: nat, types: Types): Option<Sources> {
    if One(root, ILOC).None? then None else Some(Sources(file, First(root, IDAT), One(root, ILOC).value, primary, types))
  }

  /** The primary image is a single coded image, or a grid described by the bytes its location names. */
  predicate Layers(file: Bytes, root: seq<Part>, primary: nat, types: Types, size: Size, r: Layered, payload: Bytes, locations: seq<Location>) {
    var src := SourcesOf(file, root, primary, types);
    && DataIsLocal(root) && src.Some? && Locations(src.value, locations) && primary in types
    && match r
       case Rejected => false
       case Single => types[primary] == HVC1
       case Tiled(tiles) =>
         types[primary] == GRID && Describes(src.value, IlocOf(src.value.data).value, locations, Some(payload)) && IsGrid(payload, size, tiles)
  }

  lemma OneDescription(src: Sources, locations: seq<Location>, a: Option<Bytes>, b: Option<Bytes>)
    requires Locations(src, locations)
    requires Describes(src, IlocOf(src.data).value, locations, a) && Describes(src, IlocOf(src.data).value, locations, b)
    ensures a == b
    ensures a.Some? ==> |a.value| in {8, 12}
  {
    var iloc := IlocOf(src.data).value;
    if a.Some? && b.Some? {
      var i :| 0 <= i < |locations| && IsGridItem(src, locations[i])
               && Extent(src, iloc, locations[i], 0).Some? && a.value == FirstExtent(src, iloc, locations[i]);
      var j :| 0 <= j < |locations| && IsGridItem(src, locations[j])
               && Extent(src, iloc, locations[j], 0).Some? && b.value == FirstExtent(src, iloc, locations[j]);
      assert GoodLocation(src, iloc, locations, i) && GoodLocation(src, iloc, locations, j);
      assert i == j;
    }
  }

  /** `primary_grid`: exactly the primary images laid out as a single coded image or a grid, and which of both. */
  method PrimaryGrid(file: Bytes, root: seq<Part>, primary: nat, types: Types, size: Size)
    returns (r: Layered, payload: Bytes, ghost locations: seq<Location>)
    ensures !r.Rejected? ==> Layers(file, root, primary, types, size, r, payload, locations)
    ensures forall r', payload', locations' :: Layers(file, root, primary, types, size, r', payload', locations') ==> r' == r
  {
    r, payload, locations := Rejected, [], [];
    if !DataIsLocal(root) { return; }
    var src := SourcesOf(file, root, primary, types);
    if src.None? { return; }
    var ok, found;
    ok, found, locations := ReadLocations(src.value);
    GridIsNotCoded();
    if !ok || primary !in types { return; }
    if types[primary] == HVC1 { return Single, [], locations; }
    if types[primary] != GRID { return; }
    r, payload := ReadGrid(src.value, locations, found, size);
  }

  /** Decode the grid description that was found. */
  method ReadGrid(src: Sources, ghost locations: seq<Location>, found: Option<Bytes>, size: Size) returns (r: Layered, payload: Bytes)
    requires Locations(src, locations) && Describes(src, IlocOf(src.data).value, locations, found)
    ensures r.Tiled? ==> found == Some(payload) && IsGrid(payload, size, r.tiles)
    ensures !r.Single?
    ensures forall payload', n :: Describes(src, IlocOf(src.data).value, locations, Some(payload')) && IsGrid(payload', size, n) ==> r == Tiled(n)
  {
    r, payload := Rejected, [];
    forall p: Bytes | Describes(src, IlocOf(src.data).value, locations, Some(p)) ensures found == Some(p) {
      OneDescription(src, locations, found, Some(p));
    }
    if found.None? { return; }
    OneDescription(src, locations, found, found);
    payload := found.value;
    var tiles := CountTiles(payload, size);
    r := if tiles.None? then Rejected else Tiled(tiles.value);
  }

  // ------------------------------------------------------------------ the grid's tiles

  function Area(size: Size): nat { size.width * size.height }

  /** The sizes of items, added up; items without a size add nothing. */
  function Pixels(properties: seq<Part>, associated: Associations, tiles: seq<nat>): nat
    requires InProperties(properties, associated)
  {
    if tiles == [] then 0
    else
      var size := ItemDimensions(properties, associated, tiles[|tiles| - 1]);
      Pixels(properties, associated, tiles[..|tiles| - 1]) + (if size.Some? then Area(size.value) else 0)
  }

  /** The `k`-th id of a `dimg` reference. */
  function TileId(data: Bytes, idSize: nat, k: nat): Option<nat> { Number(data, Stride(idSize + 2, k, idSize), idSize) }

  /** The ids a `dimg` reference lists for the primary item. */
  predicate ListsTiles(reference: Part, idSize: nat, primary: nat, tiles: seq<nat>) {
    && reference.kind == DIMG && Number(reference.data, 0, idSize) == Some(primary)
    && Number(reference.data, idSize, 2) == Some(|tiles|) && |reference.data| == Stride(idSize + 2, |tiles|, idSize)
    && forall k :: 0 <= k < |tiles| ==> TileId(reference.data, idSize, k) == Some(tiles[k])
  }

  /** Every tile is a coded image of a valid size, and together they stay within twice the pixel limit. */
  predicate SoundTiles(properties: seq<Part>, associated: Associations, types: Types, tiles: seq<nat>)
    requires InProperties(properties, associated)
  {
    && (forall k :: 0 <= k < |tiles| ==> tiles[k] in types && types[tiles[k]] == HVC1 && ItemDimensions(properties, associated, tiles[k]).Some?)
    && Pixels(properties, associated, tiles) <= 2 * PIXEL_LIMIT
  }

  lemma SoundTilesSnoc(properties: seq<Part>, associated: Associations, types: Types, tiles: seq<nat>, id: nat)
    requires InProperties(properties, associated) && SoundTiles(properties, associated, types, tiles)
    requires id in types && types[id] == HVC1 && ItemDimensions(properties, associated, id).Some?
    ensures var size := ItemDimensions(properties, associated, id).value;
            && Pixels(properties, associated, tiles + [id]) == Pixels(properties, associated, tiles) + Area(size)
            && (Pixels(properties, associated, tiles + [id]) <= 2 * PIXEL_LIMIT ==> SoundTiles(properties, associated, types, tiles + [id]))
  {
    assert (tiles + [id])[..|tiles|] == tiles;
  }

  lemma {:induction false} PixelsGrow(properties: seq<Part>, associated: Associations, tiles: seq<nat>, n: nat)
    requires InProperties(properties, associated) && n <= |tiles|
    ensures Pixels(properties, associated, tiles[..n]) <= Pixels(properties, associated, tiles)
    decreases |tiles|
  {
    if n < |tiles| {
      PixelsGrow(properties, associated, tiles[..|tiles| - 1], n);
      assert tiles[..|tiles| - 1][..n] == tiles[..n];
    } else {
      assert tiles[..n] == tiles;
    }
  }

  /** The first `count` ids of the reference, all of them sound tiles. */
  predicate SoundIds(data: Bytes, idSize: nat, count: nat, properties: seq<Part>, associated: Associations, types: Types, tiles: seq<nat>)
    requires InProperties(properties, associated)
  {
    && |tiles| == count && SoundTiles(properties, associated, types, tiles)
    && forall k :: 0 <= k < |tiles| ==> TileId(data, idSize, k) == Some(tiles[k])
  }

  lemma SharedPrefix(found: seq<nat>, tiles: seq<nat>)
    requires |found| < |tiles| && forall k :: 0 <= k < |found| ==> tiles[k] == found[k]
    ensures tiles[..|found| + 1] == found + [tiles[|found|]]
  {
  }

  /** A sound list continues after its first ids with a sound tile. */
  lemma NextTile(data: Bytes, idSize: nat, count: nat, properties: seq<Part>, associated: Associations, types: Types, found: seq<nat>, tiles: seq<nat>)
    requires InProperties(properties, associated) && |found| < count && SoundIds(data, idSize, count, properties, associated, types, tiles)
    requires forall k :: 0 <= k < |found| ==> TileId(data, idSize, k) == Some(found[k])
    ensures TileId(data, idSize, |found|) == Some(tiles[|found|])
    ensures Pixels(properties, associated, found + [tiles[|found|]]) <= 2 * PIXEL_LIMIT
  {
    forall k | 0 <= k < |found| ensures tiles[k] == found[k] {
      assert TileId(data, idSize, k) == Some(found[k]);
    }
    SharedPrefix(found, tiles);
    PixelsGrow(properties, associated, tiles, |found| + 1);
  }

  /** The ids read so far are sound tiles with this many pixels. */
  predicate ReadSoFar(data: Bytes, idSize: nat, properties: seq<Part>, associated: Associations, types: Types, found: seq<nat>, pixels: nat)
    requires InProperties(properties, associated)
  {
    SoundIds(data, idSize, |found|, properties, associated, types, found) && pixels == Pixels(properties, associated, found)
  }

  method ReadTileIds(data: Bytes, idSize: nat, count: nat, properties: seq<Part>, associated: Associations, types: Types) returns (tiles: Option<seq<nat>>)
    requires InProperties(properties, associated)
    ensures if tiles.Some? then SoundIds(data, idSize, count, properties, associated, types, tiles.value)
            else forall other :: !SoundIds(data, idSize, count, properties, associated, types, other)
  {
    var found: seq<nat>, pixels := [], 0;
    for k := 0 to count
      invariant |found| == k && ReadSoFar(data, idSize, properties, associated, types, found, pixels)
    {
      var id;
      id, pixels := ReadTileId(data, idSize, count, found, pixels, properties, associated, types);
      if id.None? { return None; }
      found := found + [id.value];
    }
    tiles := Some(found);
  }

  /** The next tile is a coded image with a size. */
  predicate CodedTile(properties: seq<Part>, associated: Associations, types: Types, id: nat)
    requires InProperties(properties, associated)
  {
    id in types && types[id] == HVC1 && ItemDimensions(properties, associated, id).Some?
  }

  lemma ReadMore(data: Bytes, idSize: nat, properties: seq<Part>, associated: Associations, types: Types, found: seq<nat>, pixels: nat, id: nat)
    requires InProperties(properties, associated) && ReadSoFar(data, idSize, properties, associated, types, found, pixels)
    requires TileId(data, idSize, |found|) == Some(id) && CodedTile(properties, associated, types, id)
    requires pixels + Area(ItemDimensions(properties, associated, id).value) <= 2 * PIXEL_LIMIT
    ensures ReadSoFar(data, idSize, properties, associated, types, found + [id], pixels + Area(ItemDimensions(properties, associated, id).value))
  {
    SoundTilesSnoc(properties, associated, types, found, id);
  }

  /** A tile that is not sound after these makes the whole list unsound. */
  lemma UnsoundTile(data: Bytes, idSize: nat, count: nat, properties: seq<Part>, associated: Associations, types: Types, found: seq<nat>, pixels: nat)
    requires InProperties(properties, associated) && |found| < count && ReadSoFar(data, idSize, properties, associated, types, found, pixels)
    requires var id := TileId(data, idSize, |found|);
             || id.None? || !CodedTile(properties, associated, types, id.value)
             || pixels + Area(ItemDimensions(properties, associated, id.value).value) > 2 * PIXEL_LIMIT
    ensures forall tiles :: !SoundIds(data, idSize, count, properties, associated, types, tiles)
  {
    forall tiles ensures !SoundIds(data, idSize, count, properties, associated, types, tiles) {
      if SoundIds(data, idSize, count, properties, associated, types, tiles) {
        NextTile(data, idSize, count, properties, associated, types, found, tiles);
        SoundTilesSnoc(properties, associated, types, found, tiles[|found|]);
      }
    }
  }

  /** Read the next tile id and add its pixels. */
  method ReadTileId(data: Bytes, idSize: nat, ghost count: nat, found: seq<nat>, pixels: nat, properties: seq<Part>, associated: Associations, types: Types)
    returns (id: Option<nat>, pixels': nat)
    requires InProperties(properties, associated) && |found| < count && ReadSoFar(data, idSize, properties, associated, types, found, pixels)
    ensures if id.Some? then ReadSoFar(data, idSize, properties, associated, types, found + [id.value], pixels')
            else forall other :: !SoundIds(data, idSize, count, properties, associated, types, other)
  {
    hide ReadSoFar, SoundIds, InProperties, TileId, ItemDimensions;
    id, pixels' := TileId(data, idSize, |found|), pixels;
    if id.None? || !CodedTile(properties, associated, types, id.value) {
      UnsoundTile(data, idSize, count, properties, associated, types, found, pixels);
      return None, pixels;
    }
    pixels' := pixels + Area(ItemDimensions(properties, associated, id.value).value);
    if pixels' > 2 * PIXEL_LIMIT {
      UnsoundTile(data, idSize, count, properties, associated, types, found, pixels);
      return None, pixels;
    }
    ReadMore(data, idSize, properties, associated, types, found, pixels, id.value);
  }

  /** The reference lists exactly as many tiles as the grid promises, all of them sound. */
  predicate TilesOf(reference: Part, idSize: nat, primary: nat, expected: Option<nat>, properties: seq<Part>, associated: Associations, types: Types, tiles: seq<nat>)
    requires InProperties(properties, associated)
  {
    expected == Some(|tiles|) && ListsTiles(reference, idSize, primary, tiles) && SoundTiles(properties, associated, types, tiles)
  }

  method ReadTiles(reference: Part, idSize: nat, primary: nat, expected: Option<nat>, properties: seq<Part>, associated: Associations, types: Types)
    returns (tiles: Option<seq<nat>>)
    requires InProperties(properties, associated) && (expected.Some? ==> 0 < expected.value <= MAX_TILES)
    requires reference.kind == DIMG && Number(reference.data, 0, idSize) == Some(primary)
    ensures if tiles.Some? then TilesOf(reference, idSize, primary, expected, properties, associated, types, tiles.value)
            else forall other :: !TilesOf(reference, idSize, primary, expected, properties, associated, types, other)
  {
    var count := Number(reference.data, idSize, 2);
    if count.None? || count.value == 0 || count.value > MAX_TILES || expected != count || |reference.data| != Stride(idSize + 2, count.value, idSize) { return None; }
    tiles := ReadTileIds(reference.data, idSize, count.value, properties, associated, types);
    forall other | TilesOf(reference, idSize, primary, expected, properties, associated, types, other)
      ensures SoundIds(reference.data, idSize, count.value, properties, associated, types, other) { }
  }

  /** The tile references of a file: its first `iref` box. */
  function ReferencesOf(root: seq<Part>): Option<(nat, seq<Part>)> {
    var iref := First(root, IREF);
    if iref.None? || iref.value == [] || iref.value[0] > 1 || |iref.value| < 4 then None
    else
      var references := PartsOf(iref.value[4..]);
      if references.None? then None else Some((if iref.value[0] == 0 then 2 else 4, references.value))
  }

  /** Every `dimg` reference names its owner. */
  predicate OwnersKnown(list: seq<Part>, idSize: nat) {
    forall i :: 0 <= i < |list| && list[i].kind == DIMG ==> Number(list[i].data, 0, idSize).Some?
  }

  /** The reference lists tiles of this item. */
  predicate Owned(reference: Part, idSize: nat, primary: nat) {
    reference.kind == DIMG && Number(reference.data, 0, idSize) == Some(primary)
  }

  /** Among the first `n` references, none is the item's and there are no tiles, or exactly one is and lists them. */
  predicate ListedOnce(list: seq<Part>, n: nat, idSize: nat, primary: nat, expected: Option<nat>,
                       properties: seq<Part>, associated: Associations, types: Types, tiles: Option<seq<nat>>)
    requires InProperties(properties, associated) && n <= |list|
  {
    if tiles.None? then forall i :: 0 <= i < n ==> !Owned(list[i], idSize, primary)
    else exists i :: 0 <= i < n && OnlyOwner(list, n, idSize, primary, i) && TilesOf(list[i], idSize, primary, expected, properties, associated, types, tiles.value)
  }

  predicate OnlyOwner(list: seq<Part>, n: nat, idSize: nat, primary: nat, i: nat)
    requires n <= |list|
  {
    forall j :: 0 <= j < n ==> (Owned(list[j], idSize, primary) <==> j == i)
  }

  /** The primary item's tiles as the file references them, or none without a reference. */
  predicate TilesReferenced(root: seq<Part>, primary: nat, expected: Option<nat>, properties: seq<Part>, associated: Associations, types: Types,
                            tiles: Option<seq<nat>>)
    requires InProperties(properties, associated)
  {
    if First(root, IREF).None? then tiles.None?
    else
      var references := ReferencesOf(root);
      && references.Some? && OwnersKnown(references.value.1, references.value.0)
      && ListedOnce(references.value.1, |references.value.1|, references.value.0, primary, expected, properties, associated, types, tiles)
  }

  /** A second list of tiles, or one that is not sound, spoils the references. */
  lemma BadReference(list: seq<Part>, idSize: nat, primary: nat, expected: Option<nat>, properties: seq<Part>, associated: Associations, types: Types,
                     k: nat, before: Option<seq<nat>>)
    requires InProperties(properties, associated) && k < |list| && Owned(list[k], idSize, primary)
    requires ListedOnce(list, k, idSize, primary, expected, properties, associated, types, before)
    requires before.Some? || forall other :: !TilesOf(list[k], idSize, primary, expected, properties, associated, types, other)
    ensures forall t :: !ListedOnce(list, |list|, idSize, primary, expected, properties, associated, types, t)
  {
    if before.Some? {
      var i :| 0 <= i < k && OnlyOwner(list, k, idSize, primary, i);
      assert Owned(list[i], idSize, primary);
    }
  }

  /** Another reference that is not the item's changes nothing. */
  lemma NotOwned(list: seq<Part>, idSize: nat, primary: nat, expected: Option<nat>, properties: seq<Part>, associated: Associations, types: Types,
                 k: nat, tiles: Option<seq<nat>>)
    requires InProperties(properties, associated) && k < |list| && !Owned(list[k], idSize, primary)
    requires ListedOnce(list, k, idSize, primary, expected, properties, associated, types, tiles)
    ensures ListedOnce(list, k + 1, idSize, primary, expected, properties, associated, types, tiles)
  {
    if tiles.Some? {
      var i :| 0 <= i < k && OnlyOwner(list, k, idSize, primary, i) && TilesOf(list[i], idSize, primary, expected, properties, associated, types, tiles.value);
      assert OnlyOwner(list, k + 1, idSize, primary, i);
    }
  }

  /** Look at one reference. */
  method ReadReference(list: seq<Part>, k: nat, idSize: nat, primary: nat, expected: Option<nat>, properties: seq<Part>, associated: Associations,
                       types: Types, before: Option<seq<nat>>) returns (ok: bool, tiles: Option<seq<nat>>)
    requires InProperties(properties, associated) && (expected.Some? ==> 0 < expected.value <= MAX_TILES) && k < |list|
    requires ListedOnce(list, k, idSize, primary, expected, properties, associated, types, before)
    ensures ok ==> ListedOnce(list, k + 1, idSize, primary, expected, properties, associated, types, tiles)
    ensures ok && list[k].kind == DIMG ==> Number(list[k].data, 0, idSize).Some?
    ensures !ok ==> !OwnersKnown(list, idSize)
                    || forall other :: !ListedOnce(list, |list|, idSize, primary, expected, properties, associated, types, other)
  {
    ok, tiles := true, before;
    if list[k].kind == DIMG {
      var owner := Number(list[k].data, 0, idSize);
      if owner.None? { return false, None; }
      if owner.value == primary {
        if before.None? { tiles := ReadTiles(list[k], idSize, primary, expected, properties, associated, types); }
        if before.Some? || tiles.None? {
          BadReference(list, idSize, primary, expected, properties, associated, types, k, before);
          return false, None;
        }
        assert OnlyOwner(list, k + 1, idSize, primary, k);
        return;
      }
    }
    NotOwned(list, idSize, primary, expected, properties, associated, types, k, before);
  }

  /** The primary item's tiles, if it has any: listed once, as many as the grid promises. */
  method FindTiles(root: seq<Part>, primary: nat, expected: Option<nat>, properties: seq<Part>, associated: Associations, types: Types)
    returns (ok: bool, tiles: Option<seq<nat>>)
    requires InProperties(properties, associated) && (expected.Some? ==> 0 < expected.value <= MAX_TILES)
    ensures if ok then TilesReferenced(root, primary, expected, properties, associated, types, tiles)
            else forall other :: !TilesReferenced(root, primary, expected, properties, associated, types, other)
  {
    ok, tiles := true, None;
    if First(root, IREF).None? { return; }
    var references := ReferencesOf(root);
    if references.None? { return false, None; }
    var idSize, list := references.value.0, references.value.1;
    for k := 0 to |list|
      invariant ListedOnce(list, k, idSize, primary, expected, properties, associated, types, tiles)
      invariant forall i :: 0 <= i < k && list[i].kind == DIMG ==> Number(list[i].data, 0, idSize).Some?
    {
      ok, tiles := ReadReference(list, k, idSize, primary, expected, properties, associated, types, tiles);
      if !ok { return; }
    }
  }

  // ------------------------------------------------------------------ the top level

  /** Some four-byte chunk is an HEVC still-image brand. */
  predicate HasBrand(data: Bytes) {
    exists k :: 0 <= k < |data| / 4 && data[4 * k..4 * k + 4] in HEVC_BRANDS
  }

  /** A file type box that may be read, and whose major brand is not an AV1 one. */
  predicate AllowedType(data: Bytes) {
    8 <= |data| <= META_LIMIT && data[..4] != AVIF && data[..4] != AVIS
  }

  predicate AllAllowed(fileTypes: seq<Bytes>) { forall data :: data in fileTypes ==> AllowedType(data) }

  /** Every file type is allowed, and the last one names a still-image brand. */
  predicate StillTypes(fileTypes: seq<Bytes>) {
    && AllAllowed(fileTypes)
    && fileTypes != [] && HasBrand(fileTypes[|fileTypes| - 1])
  }

  /** At most 128 boxes tile the file; their file types are a still image's, and exactly one holds this metadata. */
  predicate StillImage(file: Bytes, metadata: Bytes) {
    var boxes := Parse(file, 0, MAX_TOP_LEVEL, Lenient);
    && boxes.Some?
    && StillTypes(Matching(ToParts(file, boxes.value), FTYP))
    && Matching(ToParts(file, boxes.value), META) == [metadata] && |metadata| <= META_LIMIT
  }

  lemma {:induction false} ToPartsSnoc(bytes: Bytes, boxes: seq<Box>, box: Box)
    ensures ToParts(bytes, boxes + [box]) == ToParts(bytes, boxes) + [PartOf(bytes, box)]
  {
    if boxes == [] {
      assert boxes + [box] == [box];
    } else {
      ToPartsSnoc(bytes, boxes[1..], box);
      assert (boxes + [box])[1..] == boxes[1..] + [box];
    }
  }

  lemma {:induction false} MatchingSnoc(items: seq<Part>, item: Part, kind: Bytes)
    ensures Matching(items + [item], kind) == Matching(items, kind) + (if item.kind == kind then [item.data] else [])
  {
    if items == [] {
      assert items + [item] == [item];
    } else {
      MatchingSnoc(items[1..], item, kind);
      assert (items + [item])[1..] == items[1..] + [item];
    }
  }

  lemma {:induction false} MatchingAppend(bytes: Bytes, a: seq<Box>, b: seq<Box>, kind: Bytes)
    ensures Matching(ToParts(bytes, a + b), kind) == Matching(ToParts(bytes, a), kind) + Matching(ToParts(bytes, b), kind)
  {
    if b == [] {
      assert a + b == a;
    } else {
      var init, last := b[..|b| - 1], b[|b| - 1];
      assert a + b == (a + init) + [last] && b == init + [last];
      ToPartsSnoc(bytes, a + init, last);
      ToPartsSnoc(bytes, init, last);
      MatchingSnoc(ToParts(bytes, a + init), PartOf(bytes, last), kind);
      MatchingSnoc(ToParts(bytes, init), PartOf(bytes, last), kind);
      MatchingAppend(bytes, a, init, kind);
    }
  }

  /** The boxes read so far, and what is left. */
  predicate ScannedBoxes(file: Bytes, offset: nat, done: seq<Box>) {
    && offset <= |file| && |done| <= MAX_TOP_LEVEL
    && Parse(file, 0, MAX_TOP_LEVEL, Lenient) == Prepend(done, Parse(file, offset, MAX_TOP_LEVEL - |done|, Lenient))
  }

  /** The metadata box has been met at most once. */
  predicate FoundMetadata(found: seq<Bytes>, metadata: Option<Bytes>) {
    && found == (if metadata.Some? then [metadata.value] else [])
    && (metadata.Some? ==> |metadata.value| <= META_LIMIT)
  }

  /** All file types are allowed, and `still` is what the last one says. */
  predicate FoundTypes(fileTypes: seq<Bytes>, still: bool) {
    AllAllowed(fileTypes) && (still <==> fileTypes != [] && HasBrand(fileTypes[|fileTypes| - 1]))
  }

  /** What the scan of the top level has seen: allowed file types, and the metadata box at most once. */
  predicate Scanned(file: Bytes, offset: nat, done: seq<Box>, metadata: Option<Bytes>, still: bool) {
    && ScannedBoxes(file, offset, done)
    && FoundMetadata(Matching(ToParts(file, done), META), metadata)
    && FoundTypes(Matching(ToParts(file, done), FTYP), still)
  }

  lemma NextBox(file: Bytes, offset: nat, done: seq<Box>, box: Box)
    requires ScannedBoxes(file, offset, done) && |done| < MAX_TOP_LEVEL && offset < |file| && BoxAt(file, offset, Lenient) == Some(box)
    ensures ScannedBoxes(file, box.end, done + [box])
  {
    ParseStep(file, offset, MAX_TOP_LEVEL - |done|, Lenient, done);
  }

  lemma NextMatching(file: Bytes, done: seq<Box>, box: Box, kind: Bytes)
    ensures Matching(ToParts(file, done + [box]), kind) == Matching(ToParts(file, done), kind) + (if box.kind == kind then [PartOf(file, box).data] else [])
  {
    ToPartsSnoc(file, done, box);
    MatchingSnoc(ToParts(file, done), PartOf(file, box), kind);
  }

  lemma NextMetadata(found: seq<Bytes>, metadata: Option<Bytes>, data: Bytes)
    requires FoundMetadata(found, metadata) && metadata.None? && |data| <= META_LIMIT
    ensures FoundMetadata(found + [data], Some(data))
  {
  }

  lemma NextType(fileTypes: seq<Bytes>, still: bool, data: Bytes)
    requires FoundTypes(fileTypes, still) && AllowedType(data)
    ensures FoundTypes(fileTypes + [data], HasBrand(data))
  {
  }

  lemma NothingAdded(found: seq<Bytes>)
    ensures found + [] == found
  {
  }

  lemma ScanStep(file: Bytes, offset: nat, done: seq<Box>, metadata: Option<Bytes>, still: bool, box: Box, next: Option<Bytes>, still': bool)
    requires Scanned(file, offset, done, metadata, still) && |done| < MAX_TOP_LEVEL && offset < |file| && BoxAt(file, offset, Lenient) == Some(box)
    requires var data := PartOf(file, box).data;
             && next == (if box.kind == META then Some(data) else metadata)
             && (box.kind == META ==> metadata.None? && |data| <= META_LIMIT)
             && (box.kind == FTYP ==> AllowedType(data)) && (still' <==> if box.kind == FTYP then HasBrand(data) else still)
    ensures Scanned(file, box.end, done + [box], next, still')
  {
    hide ScannedBoxes, FoundMetadata, FoundTypes, AllowedType, HasBrand, Matching, ToParts, PartOf, BoxAt;
    var metas, types, data := Matching(ToParts(file, done), META), Matching(ToParts(file, done), FTYP), PartOf(file, box).data;
    NextBox(file, offset, done, box);
    NextMatching(file, done, box, META);
    NextMatching(file, done, box, FTYP);
    NothingAdded(metas);
    NothingAdded(types);
    if box.kind == META { NextMetadata(metas, metadata, data); }
    if box.kind == FTYP { NextType(types, still, data); }
  }

  /** The data of the next box is among that of all boxes of its kind, after that of the boxes before it. */
  lemma FoundAmong(file: Bytes, offset: nat, done: seq<Box>, box: Box) returns (more: seq<Bytes>)
    requires offset < |file| && |done| < MAX_TOP_LEVEL && BoxAt(file, offset, Lenient) == Some(box)
    requires Parse(file, 0, MAX_TOP_LEVEL, Lenient).Some?
    requires Parse(file, 0, MAX_TOP_LEVEL, Lenient) == Prepend(done, Parse(file, offset, MAX_TOP_LEVEL - |done|, Lenient))
    ensures Matching(ToParts(file, Parse(file, 0, MAX_TOP_LEVEL, Lenient).value), box.kind)
              == Matching(ToParts(file, done), box.kind) + [PartOf(file, box).data] + more
  {
    ParseStep(file, offset, MAX_TOP_LEVEL - |done|, Lenient, done);
    var rest := Parse(file, box.end, MAX_TOP_LEVEL - |done| - 1, Lenient).value;
    assert Parse(file, 0, MAX_TOP_LEVEL, Lenient).value == (done + [box]) + rest;
    MatchingAppend(file, done + [box], rest, box.kind);
    ToPartsSnoc(file, done, box);
    MatchingSnoc(ToParts(file, done), PartOf(file, box), box.kind);
    more := Matching(ToParts(file, rest), box.kind);
  }

  /** A file whose next box cannot be read, or is not allowed after the others, is not a still image. */
  lemma ScanFails(file: Bytes, offset: nat, done: seq<Box>, metadata: Option<Bytes>, still: bool, data: Bytes)
    requires Scanned(file, offset, done, metadata, still) && offset < |file|
    requires BoxAt(file, offset, Lenient).Some? ==> data == PartOf(file, BoxAt(file, offset, Lenient).value).data
    requires
      || |done| == MAX_TOP_LEVEL || BoxAt(file, offset, Lenient).None?
      || (BoxAt(file, offset, Lenient).value.kind == FTYP && !AllowedType(data))
      || (BoxAt(file, offset, Lenient).value.kind == META && (|data| > META_LIMIT || metadata.Some?))
    ensures forall m :: !StillImage(file, m)
  {
    ParseStep(file, offset, MAX_TOP_LEVEL - |done|, Lenient, done);
    if Parse(file, 0, MAX_TOP_LEVEL, Lenient).Some? {
      var box := BoxAt(file, offset, Lenient).value;
      var more := FoundAmong(file, offset, done, box);
      Spoiled(Matching(ToParts(file, done), box.kind), data, more);
      forall m ensures !StillImage(file, m) { NotStill(file, m, box.kind, data, metadata.Some?); }
    }
  }

  lemma Spoiled(before: seq<Bytes>, data: Bytes, more: seq<Bytes>)
    ensures data in before + [data] + more
    ensures |before| == 1 ==> |before + [data] + more| > 1
  {
    assert (before + [data] + more)[|before|] == data;
  }

  lemma NotStill(file: Bytes, m: Bytes, kind: Bytes, data: Bytes, repeated: bool)
    requires Parse(file, 0, MAX_TOP_LEVEL, Lenient).Some?
    requires data in Matching(ToParts(file, Parse(file, 0, MAX_TOP_LEVEL, Lenient).value), kind)
    requires repeated && kind == META ==> |Matching(ToParts(file, Parse(file, 0, MAX_TOP_LEVEL, Lenient).value), kind)| > 1
    requires (kind == FTYP && !AllowedType(data)) || (kind == META && (|data| > META_LIMIT || repeated))
    ensures !StillImage(file, m)
  {
  }

  /** Walk the top-level boxes, keeping only the metadata: exactly that of a still image. */
  method TopLevel(file: Bytes) returns (metadata: Option<Bytes>)
    ensures if metadata.Some? then StillImage(file, metadata.value) else forall m :: !StillImage(file, m)
  {
    var offset, found: Option<Bytes>, still, count := 0, None, false, 0;
    ghost var done: seq<Box> := [];
    NothingDone(Parse(file, 0, MAX_TOP_LEVEL, Lenient));
    while offset < |file|
      invariant Scanned(file, offset, done, found, still) && count == |done|
    {
      if count == MAX_TOP_LEVEL {
        ScanFails(file, offset, done, found, still, if BoxAt(file, offset, Lenient).Some? then PartOf(file, BoxAt(file, offset, Lenient).value).data else []);
        return None;
      }
      count := count + 1;
      var box, next, still' := ScanBox(file, offset, done, found, still);
      if box.None? { return None; }
      done := done + [box.value];
      offset, found, still := box.value.end, next, still';
    }
    assert done + [] == done;
    metadata := if still then found else None;
  }

  /** Look at one top-level box. */
  method ScanBox(file: Bytes, offset: nat, ghost done: seq<Box>, found: Option<Bytes>, still: bool)
    returns (box: Option<Box>, next: Option<Bytes>, still': bool)
    requires Scanned(file, offset, done, found, still) && |done| < MAX_TOP_LEVEL && offset < |file|
    ensures box.Some? ==> BoxAt(file, offset, Lenient) == box && Scanned(file, box.value.end, done + [box.value], next, still')
    ensures box.None? ==> forall m :: !StillImage(file, m)
  {
    box, next, still' := BoxAt(file, offset, Lenient), found, still;
    if box.None? {
      ScanFails(file, offset, done, found, still, []);
      return;
    }
    var data := PartOf(file, box.value).data;
    if box.value.kind == FTYP {
      if |data| > META_LIMIT || |data| < 8 || data[..4] == AVIF || data[..4] == AVIS {
        ScanFails(file, offset, done, found, still, data);
        return None, next, still';
      }
      still' := HasBrand(data);
    } else if box.value.kind == META {
      if |data| > META_LIMIT || found.Some? {
        ScanFails(file, offset, done, found, still, data);
        return None, next, still';
      }
      next := Some(data);
    }
    ScanStep(file, offset, done, found, still, box.value, next, still');
  }

  // ------------------------------------------------------------------ the whole file

  /** What the metadata of a file says, read through the functions above. */
  datatype View = View(metadata: Bytes, root: seq<Part>, primary: nat, properties: seq<Part>, associated: Associations, types: Types)

  function PrimaryOf(root: seq<Part>): Option<nat> {
    var pitm := One(root, PITM);
    if pitm.None? || pitm.value == [] || pitm.value[0] > 1 then None else Number(pitm.value, 4, if pitm.value[0] == 0 then 2 else 4)
  }

  /** The item properties and the box that associates them. */
  function PropertiesOf(root: seq<Part>): Option<(seq<Part>, Bytes)> {
    var iprp := One(root, IPRP);
    if iprp.None? || PartsOf(iprp.value).None? then None
    else
      var children := PartsOf(iprp.value).value;
      var ipco, ipma := One(children, IPCO), One(children, IPMA);
      if ipco.None? || ipma.None? || PartsOf(ipco.value).None? then None else Some((PartsOf(ipco.value).value, ipma.value))
  }

  predicate IsView(file: Bytes, v: View) {
    && StillImage(file, v.metadata) && |v.metadata| >= 4 && PartsOf(v.metadata[4..]) == Some(v.root)
    && PrimaryOf(v.root) == Some(v.primary)
    && PropertiesOf(v.root).Some? && PropertiesOf(v.root).value.0 == v.properties
    && AssociationsOf(PropertiesOf(v.root).value.1, |v.properties|) == Some(v.associated)
    && TypesOf(v.root) == Some(v.types) && InProperties(v.properties, v.associated)
  }

  /** The `ispe` properties of a file are all within the limits, even those of auxiliary items. */
  predicate AllSizesValid(properties: seq<Part>) {
    forall k :: 0 <= k < |properties| && properties[k].kind == ISPE ==> Dimensions(properties[k].data).Some?
  }

  function Turned(size: Size, turned: bool): Size { if turned then Size(size.height, size.width) else size }

  /** A quarter turn, in either direction. */
  predicate TurnsSideways(property: Part) { property.kind == IROT && property.data != [] && property.data[0] % 2 != 0 }

  /** A rotation is one byte, and clean-aperture crops are not supported. */
  predicate Showable(property: Part) {
    (property.kind == IROT ==> |property.data| == 1) && property.kind != CLAP
  }

  /** How many of the first `n` named properties turn the image sideways. */
  function SidewaysTurns(properties: seq<Part>, indices: seq<nat>, n: nat): nat
    requires n <= |indices| && forall i :: 0 <= i < |indices| ==> indices[i] < |properties|
  {
    if n == 0 then 0
    else SidewaysTurns(properties, indices, n - 1) + (if TurnsSideways(properties[indices[n - 1]]) then 1 else 0)
  }

  predicate AllShowable(properties: seq<Part>, indices: seq<nat>)
    requires forall i :: 0 <= i < |indices| ==> indices[i] < |properties|
  {
    forall i :: 0 <= i < |indices| ==> Showable(properties[indices[i]])
  }

  /** Width and height change places exactly when an odd number of rotations turn the image sideways. */
  method Orientation(properties: seq<Part>, indices: seq<nat>, size: Size) returns (oriented: Option<Size>)
    requires forall i :: 0 <= i < |indices| ==> indices[i] < |properties|
    ensures oriented.Some? <==> AllShowable(properties, indices)
    ensures oriented.Some? ==> oriented.value == Turned(size, SidewaysTurns(properties, indices, |indices|) % 2 == 1)
  {
    var current := size;
    for k := 0 to |indices|
      invariant current == Turned(size, SidewaysTurns(properties, indices, k) % 2 == 1)
      invariant forall i :: 0 <= i < k ==> Showable(properties[indices[i]])
    {
      var property := properties[indices[k]];
      if property.kind == IROT {
        if |property.data| != 1 { return None; }
        if property.data[0] % 2 != 0 { current := Turned(current, true); }
      }
      if property.kind == CLAP { return None; }
    }
    oriented := Some(current);
  }

  /** How a file is read: its view, the primary image's layers and the tiles they are made of. */
  datatype Reading = Reading(view: View, layers: Layered, payload: Bytes, locations: seq<Location>, tiles: Option<seq<nat>>)

  function Promised(layers: Layered): Option<nat> { if layers.Tiled? then Some(layers.tiles) else None }

  /** A file is accepted with this size when it can be read as a supported still image of that size. */
  predicate Accepted(file: Bytes, size: Size, r: Reading) {
    var v := r.view;
    && 0 < |file| <= SOURCE_LIMIT && IsView(file, v) && AllSizesValid(v.properties)
    && ItemDimensions(v.properties, v.associated, v.primary).Some?
    && (var own := ItemDimensions(v.properties, v.associated, v.primary).value;
        && Layers(file, v.root, v.primary, v.types, own, r.layers, r.payload, r.locations)
        && TilesReferenced(v.root, v.primary, Promised(r.layers), v.properties, v.associated, v.types, r.tiles)
        && (r.tiles.Some? <==> r.layers.Tiled?)
        && AllShowable(v.properties, v.associated[v.primary])
        && size == Turned(own, SidewaysTurns(v.properties, v.associated[v.primary], |v.associated[v.primary]|) % 2 == 1))
  }

  /** Rows times columns of a grid description. */
  function Cells(payload: Bytes): nat
    requires |payload| >= 4
  {
    OneMore(payload[2]) * OneMore(payload[3])
  }

  /**
    Every accepted size is non-zero, at most 16,384 a side and 64,000,000 pixels. A grid has exactly rows times
    columns tiles, at most 512, each a coded image of a valid size, together at most 128,000,000 pixels; without a
    grid there are no tiles.
  */
  lemma AcceptedIsBounded(file: Bytes, size: Size, r: Reading)
    requires Accepted(file, size, r)
    ensures ValidSize(size)
    ensures r.tiles.Some? <==> r.view.primary in r.view.types && r.view.types[r.view.primary] == GRID
    ensures r.tiles.Some? ==>
              && |r.payload| >= 8 && |r.tiles.value| == Cells(r.payload) && 0 < |r.tiles.value| <= MAX_TILES
              && SoundTiles(r.view.properties, r.view.associated, r.view.types, r.tiles.value)
    ensures r.tiles.None? ==> r.view.primary in r.view.types && r.view.types[r.view.primary] == HVC1
  {
    GridIsNotCoded();
    TurnedIsValid(ItemDimensions(r.view.properties, r.view.associated, r.view.primary).value);
    if r.tiles.Some? { PromisedIsPositive(r.payload, r.layers.tiles, ItemDimensions(r.view.properties, r.view.associated, r.view.primary).value); }
  }

  lemma PromisedIsPositive(payload: Bytes, tiles: nat, size: Size)
    requires IsGrid(payload, size, tiles)
    ensures 0 < tiles == Cells(payload) <= MAX_TILES
  {
  }

  method CheckSizes(properties: seq<Part>) returns (ok: bool)
    ensures ok <==> AllSizesValid(properties)
  {
    for k := 0 to |properties|
      invariant forall i :: 0 <= i < k && properties[i].kind == ISPE ==> Dimensions(properties[i].data).Some?
    {
      if properties[k].kind == ISPE && Dimensions(properties[k].data).None? { return false; }
    }
    ok := true;
  }

  /** The items, properties and types of a file. */
  method ReadView(file: Bytes) returns (v: Option<View>)
    ensures if v.Some? then IsView(file, v.value) else forall other :: !IsView(file, other)
  {
    var metadata := TopLevel(file);
    if metadata.None? || |metadata.value| < 4 { return None; }
    var root := Children(metadata.value[4..]);
    if root.None? || PrimaryOf(root.value).None? || PropertiesOf(root.value).None? { return None; }
    var properties, ipma := PropertiesOf(root.value).value.0, PropertiesOf(root.value).value.1;
    var associated := Associate(ipma, properties);
    if associated.None? { return None; }
    var types := ItemTypes(root.value);
    if types.None? { return None; }
    v := Some(View(metadata.value, root.value, PrimaryOf(root.value).value, properties, associated.value, types.value));
  }

  /** A reading either references tiles or does not. */
  lemma OneWayOfTiles(root: seq<Part>, primary: nat, expected: Option<nat>, properties: seq<Part>, associated: Associations, types: Types,
                      a: Option<seq<nat>>, b: Option<seq<nat>>)
    requires InProperties(properties, associated)
    requires TilesReferenced(root, primary, expected, properties, associated, types, a)
    requires TilesReferenced(root, primary, expected, properties, associated, types, b)
    ensures a.Some? <==> b.Some?
  {
    var references := ReferencesOf(root);
    if First(root, IREF).Some? {
      var list, idSize := references.value.1, references.value.0;
      if a.Some? {
        var i :| 0 <= i < |list| && OnlyOwner(list, |list|, idSize, primary, i);
        assert Owned(list[i], idSize, primary);
      }
      if b.Some? {
        var i :| 0 <= i < |list| && OnlyOwner(list, |list|, idSize, primary, i);
        assert Owned(list[i], idSize, primary);
      }
    }
  }

  /**
    `primary_dimensions`: exactly the files that can be read as a supported still image are accepted, with the size
    of the primary image as it is shown.
  */
  method PrimaryDimensions(file: Bytes) returns (size: Option<Size>, ghost r: Option<Reading>)
    ensures size.Some? ==> r.Some? && Accepted(file, size.value, r.value) && ValidSize(size.value)
    ensures size.None? ==> forall size', r' :: !Accepted(file, size', r')
  {
    size, r := None, None;
    if file == [] || |file| > SOURCE_LIMIT { return; }
    var view := ReadView(file);
    if view.None? { return; }
    var v := view.value;
    forall size', r' | Accepted(file, size', r') ensures r'.view == v { }   // a file can be viewed in one way only
    var valid := CheckSizes(v.properties);
    var own := ItemDimensions(v.properties, v.associated, v.primary);
    if !valid || own.None? { return; }
    ghost var locations;
    var layers, payload;
    layers, payload, locations := PrimaryGrid(file, v.root, v.primary, v.types, own.value);
    if layers.Rejected? { return; }
    if layers.Tiled? { PromisedIsPositive(payload, layers.tiles, own.value); }
    var ok, tiles := FindTiles(v.root, v.primary, Promised(layers), v.properties, v.associated, v.types);
    if !ok { return; }
    if tiles.Some? != layers.Tiled? {
      forall size', r' | Accepted(file, size', r') ensures false {
        OneWayOfTiles(v.root, v.primary, Promised(layers), v.properties, v.associated, v.types, tiles, r'.tiles);
      }
      return;
    }
    size := Orientation(v.properties, v.associated[v.primary], own.value);
    r := Some(Reading(v, layers, payload, locations, tiles));
    if size.Some? { AcceptedIsBounded(file, size.value, r.value); }
  }

  lemma TurnedIsValid(size: Size)
    requires ValidSize(size)
    ensures ValidSize(Turned(size, true))
  {
  }

  lemma GridIsNotCoded()
    ensures GRID != HVC1
  {
    assert GRID[0] != HVC1[0];
  }
}

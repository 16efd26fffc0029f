/**
  The folder inventory: an incremental cache of a remote message history (app/src-tauri/src/file_inventory.rs).

  The remote folder is a history of message maps, one per moment; every request happens at a later moment than
  the one before and sees the map of that moment. Row ids are message ids, which are positive.
*/
module FileInventory {
  import opened Common

  const MAX_FILES := 50_000
  const BATCH := 100
  const HISTORY_LIMIT := 1_000_000

  datatype Message = Message(supported: bool, body: int)

  type Remote = m: map<int, Message> | forall id :: id in m ==> id > 0 witness map[]

  type World = nat -> Remote

  /** A row as it was fetched at one moment. */
  datatype Row = Row(id: int, body: int, at: nat)

  type Rows = map<int, Row>

  predicate Supported(remote: Remote, id: int) {
    id in remote && remote[id].supported
  }

  /** The row is what the remote showed under its id when it was fetched. */
  predicate Genuine(world: World, row: Row) {
    Supported(world(row.at), row.id) && world(row.at)[row.id].body == row.body
  }

  function SupportedIds(remote: Remote): set<int> {
    set id | id in remote && remote[id].supported
  }

  /** A supported message that was there at every moment of a stretch of time. */
  ghost predicate Throughout(world: World, from: nat, to: nat, id: int) {
    forall t: nat :: from <= t <= to ==> Supported(world(t), id)
  }

  /** Every row is the genuine message of its id, fetched in the given stretch of time. */
  predicate Fetched(world: World, from: nat, to: nat, rows: Rows) {
    forall id {:trigger rows[id]} :: id in rows ==> rows[id].id == id && from <= rows[id].at <= to && Genuine(world, rows[id])
  }

  // ------------------------------------------------------------------ walking the history

  datatype Yield = Got(id: int, message: Message) | Exhausted | Broken

  predicate Below(previous: Option<int>, id: int) {
    previous.None? || id < previous.value
  }

  /** The remote iterator never skips an older message, though it may answer out of order or fail. */
  predicate HonestNext(remote: Remote, previous: Option<int>, y: Yield) {
    match y
    case Broken => true
    case Exhausted => forall id :: id in remote ==> !Below(previous, id)
    case Got(id, message) =>
      && id in remote && remote[id] == message
      && (Below(previous, id) ==> forall other :: other in remote && Below(previous, other) ==> other <= id)
  }

  method NextMessage(world: World, now: nat, previous: Option<int>) returns (y: Yield, now': nat)
    ensures now' > now && HonestNext(world(now'), previous, y)
  {
    var pause :| pause >= 1;
    now' := now + pause;
    y := *;
    if !HonestNext(world(now'), previous, y) { y := Broken; }
  }

  predicate HasId(rows: seq<Row>, id: int) {
    exists i :: 0 <= i < |rows| && rows[i].id == id
  }

  /** Rows in descending id order, each fetched in the given stretch of time. */
  predicate Descending(world: World, from: nat, to: nat, rows: seq<Row>) {
    && (forall i :: 0 <= i < |rows| ==> from <= rows[i].at <= to && Genuine(world, rows[i]))
    && forall i, j :: 0 <= i < j < |rows| ==> rows[i].id > rows[j].id
  }

  /** No supported message at or above `floor` was overlooked. */
  ghost predicate NothingOverlooked(world: World, from: nat, to: nat, floor: int, rows: seq<Row>) {
    forall id :: id >= floor && Throughout(world, from, to, id) ==> HasId(rows, id)
  }

  ghost predicate Present(world: World, from: nat, to: nat, id: int) {
    forall t: nat :: from <= t <= to ==> id in world(t)
  }

  /** Messages present all along are at or below the new high-water id. */
  ghost predicate HighEnough(world: World, from: nat, to: nat, highwater: int) {
    forall id :: Present(world, from, to, id) ==> id <= highwater
  }

  ghost predicate Seen(world: World, from: nat, to: nat, id: int) {
    exists t: nat :: from <= t <= to && id in world(t)
  }

  lemma HasIdSnoc(rows: seq<Row>, row: Row, id: int)
    ensures HasId(rows + [row], id) <==> HasId(rows, id) || row.id == id
  {
    var longer := rows + [row];
    if HasId(rows, id) {
      var i :| 0 <= i < |rows| && rows[i].id == id;
      assert longer[i].id == id;
    }
    if row.id == id { assert longer[|rows|].id == id; }
  }

  lemma LongerStretch(world: World, from: nat, to: nat, later: nat, id: int)
    requires from <= to + 1 && to <= later
    ensures Throughout(world, from, later, id) ==> Throughout(world, from, to, id)
    ensures Present(world, from, later, id) ==> Present(world, from, to, id)
  {
  }

  /** One more message of the walk leaves nothing above it overlooked. */
  lemma WalkStep(world: World, from: nat, to: nat, later: nat, previous: Option<int>, y: Yield, rows: seq<Row>, longer: seq<Row>)
    requires from <= to + 1 && to < later && from <= later && y.Got? && HonestNext(world(later), previous, y) && Below(previous, y.id)
    requires previous.Some? ==> NothingOverlooked(world, from, to, previous.value, rows)
    requires longer == if y.message.supported then rows + [Row(y.id, y.message.body, later)] else rows
    ensures NothingOverlooked(world, from, later, y.id, longer)
  {
    forall id | id >= y.id && Throughout(world, from, later, id) ensures HasId(longer, id) {
      assert Supported(world(later), id);
      LongerStretch(world, from, to, later, id);
      HasIdSnoc(rows, Row(y.id, y.message.body, later), id);
      if Below(previous, id) {
        assert id == y.id;
      } else {
        assert HasId(rows, id);
      }
    }
  }

  /** When the walk ends below `after`, or at the end of the history, nothing above `after` was overlooked. */
  lemma WalkEnds(world: World, from: nat, to: nat, later: nat, previous: Option<int>, y: Yield, after: int, rows: seq<Row>)
    requires from <= to + 1 && to < later && from <= later && HonestNext(world(later), previous, y)
    requires y.Exhausted? || (y.Got? && y.id <= after)
    requires previous.Some? ==> previous.value > after && NothingOverlooked(world, from, to, previous.value, rows)
    ensures NothingOverlooked(world, from, later, after + 1, rows)
    ensures previous.None? ==> HighEnough(world, from, later, after)
  {
    forall id | id >= after + 1 && Throughout(world, from, later, id) ensures HasId(rows, id) {
      assert Supported(world(later), id);
      LongerStretch(world, from, to, later, id);
      assert !Below(previous, id);
    }
    if previous.None? {
      forall id | Present(world, from, later, id) ensures id <= after {
        assert id in world(later);
      }
    }
  }

  lemma HighStep(world: World, from: nat, to: nat, later: nat, previous: Option<int>, y: Yield, highwater: int, raised: int)
    requires from <= to + 1 && to < later && from <= later && y.Got? && HonestNext(world(later), previous, y)
    requires raised >= highwater && raised >= y.id
    requires previous.Some? ==> HighEnough(world, from, to, highwater)
    ensures HighEnough(world, from, later, raised)
  {
    forall id | Present(world, from, later, id) ensures id <= raised {
      assert id in world(later);
      LongerStretch(world, from, to, later, id);
    }
  }

  lemma HighStays(world: World, from: nat, to: nat, later: nat, highwater: int)
    requires from <= to + 1 && to <= later && HighEnough(world, from, to, highwater)
    ensures HighEnough(world, from, later, highwater)
  {
    forall id | Present(world, from, later, id) ensures id <= highwater {
      LongerStretch(world, from, to, later, id);
    }
  }

  /** What has been gathered down to message `previous`, none yet if there is none. */
  ghost predicate Walked(world: World, from: nat, to: nat, after: int, previous: Option<int>, highwater: int, rows: seq<Row>) {
    && Descending(world, from, to, rows)
    && (forall i :: 0 <= i < |rows| ==> after < rows[i].id <= highwater)
    && match previous
       case None => rows == [] && highwater == after
       case Some(p) =>
         && after < p <= highwater && Seen(world, from, to, highwater)
         && (forall i :: 0 <= i < |rows| ==> rows[i].id >= p)
         && HighEnough(world, from, to, highwater)
         && NothingOverlooked(world, from, to, p, rows)
  }

  /** The outcome of a walk: every message above `after` that was there all along, or the newest beyond the limit. */
  ghost predicate WalkedAll(world: World, from: nat, to: nat, after: int, highwater: int, rows: seq<Row>) {
    && Descending(world, from, to, rows) && |rows| <= MAX_FILES + 1
    && highwater >= after && (highwater == after || Seen(world, from, to, highwater)) && HighEnough(world, from, to, highwater)
    && (forall i :: 0 <= i < |rows| ==> after < rows[i].id <= highwater)
    && NothingOverlooked(world, from, to, if |rows| > MAX_FILES then rows[|rows| - 1].id else after + 1, rows)
  }

  lemma DescendingSnoc(world: World, from: nat, to: nat, later: nat, rows: seq<Row>, row: Row)
    requires Descending(world, from, to, rows) && to <= later && from <= later && row.at == later && Genuine(world, row)
    requires forall i :: 0 <= i < |rows| ==> rows[i].id > row.id
    ensures Descending(world, from, later, rows + [row])
  {
  }

  lemma WalkedStep(world: World, from: nat, to: nat, later: nat, after: int, previous: Option<int>, y: Yield,
                   highwater: int, raised: int, rows: seq<Row>, longer: seq<Row>)
    requires from <= to + 1 && to < later && from <= later && Walked(world, from, to, after, previous, highwater, rows)
    requires y.Got? && HonestNext(world(later), previous, y) && Below(previous, y.id) && y.id > after
    requires raised == if y.id > highwater then y.id else highwater
    requires longer == if y.message.supported then rows + [Row(y.id, y.message.body, later)] else rows
    ensures Walked(world, from, later, after, Some(y.id), raised, longer)
  {
    HighStep(world, from, to, later, previous, y, highwater, raised);
    WalkStep(world, from, to, later, previous, y, rows, longer);
    if y.message.supported { DescendingSnoc(world, from, to, later, rows, Row(y.id, y.message.body, later)); }
    assert Seen(world, from, later, raised) by {
      if raised == y.id {
        assert y.id in world(later);
      } else {
        var t: nat :| from <= t <= to && highwater in world(t);
      }
    }
  }

  lemma WalkedEnd(world: World, from: nat, to: nat, later: nat, after: int, previous: Option<int>, y: Yield,
                  highwater: int, rows: seq<Row>)
    requires from <= to + 1 && to < later && from <= later && Walked(world, from, to, after, previous, highwater, rows)
    requires |rows| <= MAX_FILES && HonestNext(world(later), previous, y) && (y.Exhausted? || (y.Got? && y.id <= after))
    ensures WalkedAll(world, from, later, after, highwater, rows)
  {
    WalkEnds(world, from, to, later, previous, y, after, rows);
    if previous.Some? {
      HighStays(world, from, to, later, highwater);
      var t: nat :| from <= t <= to && highwater in world(t);
      assert from <= t <= later && highwater in world(t);
    }
  }

  /**
    New supported messages, newest first, from a history that is walked while it may change. Messages there
    all along are found, unless more than the limit is; the high-water id never falls.
  */
  method History(world: World, now: nat, after: int) returns (ok: bool, highwater: int, rows: seq<Row>, now': nat)
    ensures now' > now
    ensures ok ==> WalkedAll(world, now + 1, now', after, highwater, rows)
  {
    ok, highwater, rows, now' := false, after, [], now;
    var previous: Option<int>, seen := None, 0;
    while true
      invariant now' >= now && |rows| <= MAX_FILES && 0 <= seen <= HISTORY_LIMIT
      invariant Walked(world, now + 1, now', after, previous, highwater, rows)
      decreases HISTORY_LIMIT - seen
    {
      ghost var before, had := now', rows;
      var y;
      y, now' := NextMessage(world, now', previous);
      if y.Broken? { return; }
      if y.Exhausted? || y.id <= after {
        WalkedEnd(world, now + 1, before, now', after, previous, y, highwater, rows);
        ok := true;
        return;
      }
      if previous.Some? && y.id >= previous.value { return; }
      seen := seen + 1;
      if seen > HISTORY_LIMIT { return; }
      if y.message.supported {
        rows := rows + [Row(y.id, y.message.body, now')];
      }
      var raised := if y.id > highwater then y.id else highwater;
      WalkedStep(world, now + 1, before, now', after, previous, y, highwater, raised, had, rows);
      previous, highwater := Some(y.id), raised;
      if |rows| > MAX_FILES {
        ok := true;
        return;
      }
    }
  }
  // ------------------------------------------------------------------ verifying known ids

  /**
    What a lookup may answer: rows are genuine, and in an answer of the right length a missing row is really
    missing. Length and positions are the caller's to check.
  */
  predicate HonestReply(world: World, now: nat, ids: seq<int>, values: seq<Option<Row>>) {
    && (forall i :: 0 <= i < |values| && values[i].Some? ==> values[i].value.at == now && Genuine(world, values[i].value))
    && (|values| == |ids| ==> forall i :: 0 <= i < |ids| && values[i].None? ==> !Supported(world(now), ids[i]))
  }

  method Lookup(world: World, now: nat, ids: seq<int>) returns (values: Option<seq<Option<Row>>>, now': nat)
    ensures now' > now && (values.Some? ==> HonestReply(world, now', ids, values.value))
  {
    var pause :| pause >= 1;
    now' := now + pause;
    var answer: seq<Option<Row>> := *;
    values := if HonestReply(world, now', ids, answer) then Some(answer) else None;
  }

  /** What verification of `ids` brings back: genuine rows for some of them, and for all that were there all along. */
  ghost predicate Verified(world: World, from: nat, to: nat, ids: seq<int>, rows: Rows) {
    && Fetched(world, from, to, rows)
    && (forall id :: id in rows ==> id in ids)
    && forall id :: id in ids && Throughout(world, from, to, id) ==> id in rows
  }

  method VerifyBatch(world: World, now: nat, batch: seq<int>) returns (ok: bool, rows: Rows, now': nat)
    ensures now' > now
    ensures ok ==> Verified(world, now + 1, now', batch, rows)
  {
    ok, rows := false, map[];
    var values;
    values, now' := Lookup(world, now, batch);
    if values.None? || |values.value| != |batch| { return; }
    for i := 0 to |batch|
      invariant Fetched(world, now + 1, now', rows)
      invariant forall id :: id in rows ==> id in batch
      invariant forall k :: 0 <= k < i && Supported(world(now'), batch[k]) ==> batch[k] in rows
    {
      var value := values.value[i];
      if value.Some? {
        if value.value.id != batch[i] { return; }
        rows := rows[batch[i] := value.value];
      }
    }
    forall id | id in batch && Throughout(world, now + 1, now', id) ensures id in rows {
      assert Supported(world(now'), id);
    }
    ok := true;
  }

  lemma VerifiedJoins(world: World, from: nat, mid: nat, to: nat, ids: seq<int>, rows: Rows, batch: seq<int>, more: Rows)
    requires from <= mid + 1 && mid < to
    requires Verified(world, from, mid, ids, rows) && Verified(world, mid + 1, to, batch, more)
    ensures Verified(world, from, to, ids + batch, rows + more)
  {
    forall id | id in ids + batch && Throughout(world, from, to, id) ensures id in rows + more {
      if id in ids { assert Throughout(world, from, mid, id); } else { assert Throughout(world, mid + 1, to, id); }
    }
  }

  /** `verify`: look ids up in batches. */
  method Verify(world: World, now: nat, ids: seq<int>) returns (ok: bool, rows: Rows, now': nat)
    ensures now' >= now
    ensures ok ==> Verified(world, now + 1, now', ids, rows)
  {
    rows, now' := map[], now;
    var next := 0;
    while next < |ids|
      invariant next <= |ids| && now' >= now
      invariant Verified(world, now + 1, now', ids[..next], rows)
    {
      var end := Min(next + BATCH, |ids|);
      ghost var before := now';
      var more;
      ok, more, now' := VerifyBatch(world, now', ids[next..end]);
      if !ok { return; }
      VerifiedJoins(world, now + 1, before, now', ids[..next], rows, ids[next..end], more);
      assert ids[..next] + ids[next..end] == ids[..end];
      rows, next := rows + more, end;
    }
    assert ids[..next] == ids;
    ok := true;
  }

  // ------------------------------------------------------------------ the audit sweep

  function IdSet(ids: seq<int>): set<int> { set id | id in ids }

  /** Drop the verified ids and put back what verification found. */
  function Replace(rows: Rows, ids: seq<int>, verified: Rows): Rows {
    (rows - IdSet(ids)) + verified
  }

  /** Every row was fetched since `start`. */
  predicate AllSince(rows: Rows, start: nat) { forall id :: id in rows ==> rows[id].at >= start }

  /** Rows up to the sweep position were fetched since the sweep began. */
  predicate SweptUpTo(rows: Rows, auditAfter: int, sweepStart: nat) {
    forall id :: id in rows && id <= auditAfter ==> rows[id].at >= sweepStart
  }

  /** What targeted verification and auditing may do: rows are refetched or dropped, and dropped only when not there all along. */
  ghost predicate Rechecked(world: World, from: nat, to: nat, before: Rows, after: Rows) {
    && (forall id {:trigger after[id]} :: id in after ==> (id in before && after[id] == before[id]) || (from <= after[id].at <= to && Genuine(world, after[id])))
    && forall id :: id in before && Throughout(world, from, to, id) ==> id in after
  }

  lemma ReplaceRechecks(world: World, from: nat, mid: nat, to: nat, first: Rows, rows: Rows, ids: seq<int>, verified: Rows)
    requires from <= mid + 1 && mid <= to && Rechecked(world, from, mid, first, rows) && Fetched(world, 0, mid, rows)
    requires Verified(world, mid + 1, to, ids, verified)
    ensures Rechecked(world, from, to, first, Replace(rows, ids, verified))
    ensures Fetched(world, 0, to, Replace(rows, ids, verified))
  {
    var after := Replace(rows, ids, verified);
    forall id | id in first && Throughout(world, from, to, id) ensures id in after {
      assert Throughout(world, from, mid, id) && Throughout(world, mid + 1, to, id);
    }
  }

  lemma ReplaceSweeps(world: World, mid: nat, to: nat, rows: Rows, ids: seq<int>, verified: Rows, auditAfter: int, reached: int, sweepStart: nat)
    requires SweptUpTo(rows, auditAfter, sweepStart) && sweepStart <= mid + 1
    requires Verified(world, mid + 1, to, ids, verified)
    requires forall id :: id in rows && auditAfter < id <= reached ==> id in ids
    ensures SweptUpTo(Replace(rows, ids, verified), reached, sweepStart)
  {
    var after := Replace(rows, ids, verified);
    forall id | id in after && id <= reached ensures after[id].at >= sweepStart {
      if id in verified { assert after[id] == verified[id]; } else { assert id in rows && id !in ids && after[id] == rows[id]; }
    }
  }

  function Above(rows: Rows, floor: int): set<int> {
    set id | id in rows && id > floor
  }

  lemma AscendingOrder(ids: seq<int>, i: nat, j: nat)
    requires Ascending(ids) && i < |ids| && j < |ids|
    ensures ids[i] < ids[j] <==> i < j
    ensures ids[i] <= ids[j] <==> i <= j
  {
  }

  /** In an ascending list, an element between two others lies between their positions. */
  lemma BetweenPositions(ids: seq<int>, k: nat, next: nat, end: nat)
    requires Ascending(ids) && k < |ids| && next < end <= |ids|
    requires ids[k] <= ids[end - 1] && (next > 0 ==> ids[next - 1] < ids[k])
    ensures next <= k < end
  {
    AscendingOrder(ids, k, end - 1);
    if next > 0 { AscendingOrder(ids, next - 1, k); }
  }

  /** Where the sweep stands after the first `next` of the ids it set out to verify. */
  function Reached(auditAfter: int, ids: seq<int>, next: nat): int
    requires next <= |ids|
  {
    if next == 0 then auditAfter else ids[next - 1]
  }

  /** A batch holds every row between the sweep positions before and after it. */
  lemma BatchCovers(rows: Rows, auditAfter: int, ids: seq<int>, next: nat, end: nat, id: int)
    requires Ascending(ids) && (forall x :: x in ids <==> x in Above(rows, auditAfter)) && next < end <= |ids|
    requires id in rows && Reached(auditAfter, ids, next) < id <= ids[end - 1]
    ensures id in ids[next..end]
  {
    if next > 0 { assert ids[next - 1] in ids; }
    assert id in Above(rows, auditAfter);
    var k :| 0 <= k < |ids| && ids[k] == id;
    BetweenPositions(ids, k, next, end);
    assert ids[next..end][k - next] == id;
  }

  lemma AllSwept(rows: Rows, auditAfter: int, ids: seq<int>, id: int)
    requires Ascending(ids) && (forall x :: x in ids <==> x in Above(rows, auditAfter)) && id in rows
    ensures id <= Reached(auditAfter, ids, |ids|)
  {
    if ids != [] { assert ids[|ids| - 1] in ids; }
    if id > auditAfter {
      assert id in Above(rows, auditAfter);
      var k :| 0 <= k < |ids| && ids[k] == id;
      AscendingOrder(ids, k, |ids| - 1);
    }
  }

  /** A sweep past every row has covered them all, and the next one starts at the beginning. */
  lemma SweptAll(rows: Rows, auditAfter: int, sweepStart: nat)
    requires SweptUpTo(rows, auditAfter, sweepStart) && forall id :: id in rows ==> id <= auditAfter
    ensures AllSince(rows, sweepStart) && SweptUpTo(rows, 0, sweepStart)
  {
  }

  /** One batch of the sweep. */
  method SweepBatch(world: World, ghost start: nat, ghost first: Rows, now: nat, rows: Rows, batch: seq<int>,
                    ghost reached: int, ghost reached': int, ghost sweepStart: nat)
    returns (ok: bool, rows': Rows, now': nat)
    requires start <= now + 1 && sweepStart <= now + 1
    requires Fetched(world, 0, now, rows) && SweptUpTo(rows, reached, sweepStart)
    requires Rechecked(world, start, now, first, rows) && rows.Keys <= first.Keys
    requires forall id :: id in rows && reached < id <= reached' ==> id in batch
    requires forall id :: id in batch ==> id in first
    ensures now' >= now
    ensures ok ==> Fetched(world, 0, now', rows') && SweptUpTo(rows', reached', sweepStart)
    ensures ok ==> Rechecked(world, start, now', first, rows') && rows'.Keys <= first.Keys
  {
    var verified;
    rows' := rows;
    ok, verified, now' := Verify(world, now, batch);
    if !ok { return; }
    ReplaceRechecks(world, start, now, now', first, rows, batch, verified);
    ReplaceSweeps(world, now, now', rows, batch, verified, reached, reached', sweepStart);
    rows' := Replace(rows, batch, verified);
    forall id | id in rows' ensures id in first {
      assert id in rows || id in verified;
    }
  }

  /**
    Re-verify rows above the sweep position in batches, until the quota or the shared budget runs out; a forced
    audit runs to the end. When the sweep finishes, every row was fetched since it began.
  */
  method Sweep(world: World, now: nat, rows: Rows, auditAfter: int, force: bool, quota: nat, ghost sweepStart: nat)
    returns (ok: bool, rows': Rows, auditAfter': int, finished: bool, now': nat)
    requires Fetched(world, 0, now, rows) && SweptUpTo(rows, auditAfter, sweepStart) && sweepStart <= now + 1
    ensures now' >= now
    ensures ok ==> Fetched(world, 0, now', rows') && SweptUpTo(rows', auditAfter', sweepStart)
    ensures ok ==> Rechecked(world, now + 1, now', rows, rows') && rows'.Keys <= rows.Keys
    ensures ok && finished ==> auditAfter' == 0 && AllSince(rows', sweepStart)
    ensures ok && !finished ==> auditAfter' >= auditAfter
    ensures ok && force ==> finished
  {
    hide Fetched, SweptUpTo, Rechecked, AllSince, Ascending, SortedIds;
    ok, rows', auditAfter', finished, now' := false, rows, auditAfter, false, now;
    var ids := SortedIds(Above(rows, auditAfter));
    SortedIdsAreSorted(Above(rows, auditAfter));
    UntouchedIsRechecked(world, now + 1, now, rows);
    var next, processed := 0, 0;
    while next < |ids|
      invariant next <= |ids| && now' >= now && auditAfter' == Reached(auditAfter, ids, next) >= auditAfter
      invariant Fetched(world, 0, now', rows') && SweptUpTo(rows', auditAfter', sweepStart)
      invariant Rechecked(world, now + 1, now', rows, rows') && rows'.Keys <= rows.Keys
      invariant force ==> !finished
    {
      var allowed: bool := *;
      if !force && (processed >= quota || !allowed) { break; }
      var end := Min(next + BATCH, |ids|);
      forall id | id in rows' && auditAfter' < id <= ids[end - 1] ensures id in ids[next..end] {
        BatchCovers(rows, auditAfter, ids, next, end, id);
      }
      forall id | id in ids[next..end] ensures id in rows {
        assert id in ids;
      }
      var verified;
      verified, rows', now' := SweepBatch(world, now + 1, rows, now', rows', ids[next..end], auditAfter', ids[end - 1], sweepStart);
      if !verified { return; }
      assert ids[end - 1] in ids;
      next, processed, auditAfter' := end, processed + 1, ids[end - 1];
    }
    ok, finished := true, ids == [] || auditAfter' >= ids[|ids| - 1];
    if finished {
      forall id | id in rows' ensures id <= auditAfter' { AllSwept(rows, auditAfter, ids, id); }
      SweptAll(rows', auditAfter', sweepStart);
      auditAfter' := 0;
    }
  }

  // ------------------------------------------------------------------ merging and truncating

  /** `merged` is `rows` with the additions inserted over them. */
  ghost predicate IsMerge(rows: Rows, additions: seq<Row>, merged: Rows) {
    && (forall id :: id in merged <==> id in rows || HasId(additions, id))
    && (forall i :: 0 <= i < |additions| ==> additions[i].id in merged && merged[additions[i].id] == additions[i])
    && forall id :: id in rows && !HasId(additions, id) ==> merged[id] == rows[id]
  }

  method Merge(rows: Rows, additions: seq<Row>) returns (rows': Rows)
    requires forall i, j :: 0 <= i < j < |additions| ==> additions[i].id > additions[j].id
    ensures IsMerge(rows, additions, rows')
  {
    rows' := rows;
    for k := 0 to |additions|
      invariant forall id :: id in rows' <==> id in rows || HasId(additions[..k], id)
      invariant forall i :: 0 <= i < k ==> additions[i].id in rows' && rows'[additions[i].id] == additions[i]
      invariant forall id :: id in rows && !HasId(additions[..k], id) ==> rows'[id] == rows[id]
    {
      ghost var before := rows';
      rows' := rows'[additions[k].id := additions[k]];
      assert additions[..k + 1] == additions[..k] + [additions[k]];
      forall id ensures HasId(additions[..k + 1], id) <==> HasId(additions[..k], id) || additions[k].id == id {
        HasIdSnoc(additions[..k], additions[k], id);
      }
    }
    assert additions[..|additions|] == additions;
  }

  /** The newest rows of a map, up to the limit. */
  predicate IsNewest(rows: Rows, kept: Rows) {
    && kept.Keys <= rows.Keys && |kept| == Min(|rows|, MAX_FILES)
    && (forall id :: id in kept ==> kept[id] == rows[id])
    && forall id, k :: id in rows && id !in kept && k in kept ==> id < k
  }

  lemma RemoveLeast(rows: Rows, before: Rows, least: int)
    requires before.Keys <= rows.Keys && (forall id :: id in before ==> before[id] == rows[id])
    requires forall id, k :: id in rows && id !in before && k in before ==> id < k
    requires IsLeast(before.Keys, least)
    ensures var after := before - {least};
            && after.Keys <= rows.Keys && |after| == |before| - 1
            && (forall id :: id in after ==> after[id] == rows[id])
            && forall id, k :: id in rows && id !in after && k in after ==> id < k
  {
    var after := before - {least};
    assert after.Keys == before.Keys - {least};
  }

  /** Pop the oldest rows beyond the limit. */
  method Truncate(rows: Rows) returns (kept: Rows)
    ensures IsNewest(rows, kept)
  {
    kept := rows;
    while |kept| > MAX_FILES
      invariant kept.Keys <= rows.Keys && |kept| >= Min(|rows|, MAX_FILES)
      invariant forall id :: id in kept ==> kept[id] == rows[id]
      invariant forall id, k :: id in rows && id !in kept && k in kept ==> id < k
      invariant |kept| == |rows| || |rows| > MAX_FILES
    {
      HasLeast(kept.Keys);
      var least :| IsLeast(kept.Keys, least);
      RemoveLeast(rows, kept, least);
      kept := kept - {least};
    }
    if |kept| == |rows| { assert |kept| == Min(|rows|, MAX_FILES); }
  }

  // ------------------------------------------------------------------ agreement with the remote listing

  predicate InRemote(rows: Rows, remote: Remote) {
    forall id {:trigger rows[id]} :: id in rows ==> Supported(remote, id) && rows[id].id == id && rows[id].body == remote[id].body
  }

  predicate Highest(highwater: int, remote: Remote) {
    && (highwater == 0 || highwater in remote)
    && forall id :: id in remote ==> id <= highwater
  }

  /** The rows are the newest supported messages up to the limit, and `complete` says whether they are all of them. */
  predicate Synced(rows: Rows, complete: bool, highwater: int, remote: Remote) {
    && InRemote(rows, remote) && |rows| == Min(|SupportedIds(remote)|, MAX_FILES)
    && (forall id, k :: id in SupportedIds(remote) && id !in rows && k in rows ==> id < k)
    && (complete <==> |SupportedIds(remote)| <= MAX_FILES)
    && Highest(highwater, remote)
  }

  /** The remote only gained messages with larger ids. */
  predicate Extends(older: Remote, newer: Remote) {
    && (forall id :: id in older ==> id in newer && newer[id] == older[id])
    && forall id, old_ :: id in newer && id !in older && old_ in older ==> id > old_
  }

  ghost predicate Fixed(world: World, from: nat, to: nat, remote: Remote) {
    forall t: nat :: from <= t <= to ==> world(t) == remote
  }

  /** Supported messages missing from `rows` are older than all of `newest`, which fills the limit. */
  predicate Holding(rows: Rows, remote: Remote, newest: set<int>, whole: bool) {
    && newest <= rows.Keys
    && (whole ==> SupportedIds(remote) <= rows.Keys)
    && (!whole ==> |SupportedIds(remote)| > MAX_FILES && |newest| >= MAX_FILES)
    && forall id, g :: id in SupportedIds(remote) && id !in rows && g in newest ==> id < g
  }

  lemma {:induction false} IdsOfRows(rows: seq<Row>) returns (ids: set<int>)
    requires forall i, j :: 0 <= i < j < |rows| ==> rows[i].id > rows[j].id
    ensures |ids| == |rows| && forall id :: id in ids <==> HasId(rows, id)
  {
    if rows == [] {
      ids := {};
    } else {
      var n := |rows| - 1;
      var before := IdsOfRows(rows[..n]);
      assert rows == rows[..n] + [rows[n]];
      forall id ensures HasId(rows, id) <==> HasId(rows[..n], id) || rows[n].id == id { HasIdSnoc(rows[..n], rows[n], id); }
      assert rows[n].id in before ==> HasId(rows[..n], rows[n].id);
      assert !HasId(rows[..n], rows[n].id);
      ids := before + {rows[n].id};
    }
  }

  lemma SubsetSize(a: set<int>, b: set<int>)
    requires a <= b
    ensures |a| <= |b| && (|a| == |b| ==> a == b)
  {
    assert b == a + (b - a);
    assert |b| == |a| + |b - a|;
  }

  /** Old rows and what the walk of a fixed remote added hold everything that matters. */
  lemma MergeHolds(world: World, from: nat, to: nat, older: Remote, remote: Remote, rows: Rows, complete: bool,
                   after: int, highwater: int, additions: seq<Row>, merged: Rows) returns (newest: set<int>)
    requires from <= to && Fixed(world, from, to, remote) && Extends(older, remote) && Synced(rows, complete, after, older)
    requires WalkedAll(world, from, to, after, highwater, additions)
    requires IsMerge(rows, additions, merged)
    ensures Holding(merged, remote, newest, complete && |additions| <= MAX_FILES)
  {
    var added := IdsOfRows(additions);
    forall id | id in added ensures id in SupportedIds(remote) {
      var i :| 0 <= i < |additions| && additions[i].id == id;
      assert Genuine(world, additions[i]);
    }
    forall id | id in SupportedIds(older) ensures id in SupportedIds(remote) { }
    SubsetSize(added, SupportedIds(remote));
    SubsetSize(SupportedIds(older), SupportedIds(remote));
    var floor := if |additions| > MAX_FILES then additions[|additions| - 1].id else after + 1;
    forall id | id in SupportedIds(remote) && id >= floor ensures id in merged {
      assert Throughout(world, from, to, id);
    }
    if |additions| > MAX_FILES {
      newest := added;
      forall id, g | id in SupportedIds(remote) && id !in merged && g in newest ensures id < g {
        var i :| 0 <= i < |additions| && additions[i].id == g;
      }
    } else {
      newest := rows.Keys;
      forall id | id in SupportedIds(remote) && id !in merged ensures id in SupportedIds(older) && id !in rows {
        MissingIsOld(older, remote, after, id);
      }
      if complete {
        SameSet(rows, older);
        assert SupportedIds(remote) <= merged.Keys;
      } else {
        assert |rows.Keys| == |rows|;
        assert |newest| >= MAX_FILES;
        assert |SupportedIds(remote)| > MAX_FILES;
      }
      forall id | id in newest ensures id in merged { assert id in rows; }
    }
  }

  lemma MissingIsOld(older: Remote, remote: Remote, after: int, id: int)
    requires Extends(older, remote) && Highest(after, older) && id in SupportedIds(remote) && id <= after
    ensures id in SupportedIds(older)
  {
    if id !in older { }
  }

  /** A complete row set is the whole supported history. */
  lemma SameSet(rows: Rows, remote: Remote)
    requires InRemote(rows, remote) && |rows| == |SupportedIds(remote)|
    ensures rows.Keys == SupportedIds(remote)
  {
    forall id | id in rows.Keys ensures id in SupportedIds(remote) { assert rows[id].id == id; }
    SubsetSize(rows.Keys, SupportedIds(remote));
  }

  lemma MergeInRemote(world: World, from: nat, to: nat, older: Remote, remote: Remote, rows: Rows, additions: seq<Row>, merged: Rows)
    requires Fixed(world, from, to, remote) && Extends(older, remote) && InRemote(rows, older) && Descending(world, from, to, additions)
    requires IsMerge(rows, additions, merged)
    ensures InRemote(merged, remote)
  {
    forall id | id in merged ensures Supported(remote, id) && merged[id].id == id && merged[id].body == remote[id].body {
      if HasId(additions, id) {
        var i :| 0 <= i < |additions| && additions[i].id == id;
        assert Genuine(world, additions[i]);
      } else {
        assert merged[id] == rows[id];
      }
    }
  }

  /** Rechecking rows against a fixed remote loses none of them and leaves them as they are. */
  lemma RecheckHolds(world: World, from: nat, to: nat, remote: Remote, before: Rows, after: Rows, newest: set<int>, whole: bool)
    requires Fixed(world, from, to, remote) && Rechecked(world, from, to, before, after)
    requires forall id {:trigger after[id]} :: id in after ==> after[id].id == id
    requires InRemote(before, remote) && Holding(before, remote, newest, whole)
    ensures InRemote(after, remote) && Holding(after, remote, newest, whole)
  {
    forall id | id in before ensures id in after {
      assert before[id].id == id;
      assert Throughout(world, from, to, id);
    }
    forall id | id in after ensures Supported(remote, id) && after[id].id == id && after[id].body == remote[id].body {
      if !(id in before && after[id] == before[id]) { assert Genuine(world, after[id]); }
    }
  }

  lemma SupportedRows(rows: Rows, remote: Remote)
    requires InRemote(rows, remote)
    ensures rows.Keys <= SupportedIds(remote) && |rows| <= |SupportedIds(remote)|
  {
    forall id | id in rows ensures id in SupportedIds(remote) { assert rows[id].id == id; }
    SubsetSize(rows.Keys, SupportedIds(remote));
  }

  /** Everything not kept, and everything missing before, is older than everything kept. */
  lemma KeptAreNewest(rows: Rows, kept: Rows, remote: Remote, newest: set<int>, whole: bool, id: int, k: int)
    requires InRemote(rows, remote) && Holding(rows, remote, newest, whole) && IsNewest(rows, kept)
    requires id in SupportedIds(remote) && id !in kept && k in kept
    ensures id < k
  {
    if id !in rows && k < id {
      forall g | g in newest ensures g in kept.Keys - {k} { }
      SubsetSize(newest, kept.Keys - {k});
    }
  }

  lemma TruncateSyncs(rows: Rows, kept: Rows, remote: Remote, newest: set<int>, whole: bool, highwater: int)
    requires InRemote(rows, remote) && Holding(rows, remote, newest, whole) && IsNewest(rows, kept) && Highest(highwater, remote)
    ensures Synced(kept, whole && |rows| <= MAX_FILES, highwater, remote)
  {
    SupportedRows(rows, remote);
    forall id | id in kept ensures Supported(remote, id) && kept[id].id == id && kept[id].body == remote[id].body { assert kept[id] == rows[id]; }
    forall id, k | id in SupportedIds(remote) && id !in kept && k in kept ensures id < k {
      KeptAreNewest(rows, kept, remote, newest, whole, id, k);
    }
    if whole {
      assert rows.Keys == SupportedIds(remote);
      assert |rows.Keys| == |rows|;
    } else {
      SubsetSize(newest, rows.Keys);
      assert |rows.Keys| == |rows|;
    }
  }

  lemma HighwaterIsHighest(world: World, from: nat, to: nat, older: Remote, remote: Remote, after: int, highwater: int, additions: seq<Row>)
    requires from <= to && Fixed(world, from, to, remote) && Extends(older, remote) && Highest(after, older)
    requires WalkedAll(world, from, to, after, highwater, additions)
    ensures Highest(highwater, remote)
  {
    forall id | id in remote ensures id <= highwater {
      assert Present(world, from, to, id);
    }
    if highwater != after {
      var t: nat :| from <= t <= to && highwater in world(t);
    }
  }

  // ------------------------------------------------------------------ the inventory

  datatype Cursor = Cursor(highwater: int, ids: seq<int>)

  /** Rows newest first. */
  function NewestFirst(rows: Rows): seq<Row> {
    Backwards(rows, SortedIds(rows.Keys))
  }

  function Backwards(rows: Rows, ids: seq<int>): seq<Row> {
    if ids == [] then []
    else Backwards(rows, ids[1..]) + (if ids[0] in rows then [rows[ids[0]]] else [])
  }

  lemma {:induction false} BackwardsAt(rows: Rows, ids: seq<int>, i: nat)
    requires i < |ids| && forall k :: 0 <= k < |ids| ==> ids[k] in rows
    ensures |Backwards(rows, ids)| == |ids| && Backwards(rows, ids)[i] == rows[ids[|ids| - 1 - i]]
  {
    if |ids| > 1 { BackwardsAt(rows, ids[1..], if i < |ids| - 1 then i else 0); }
  }

  /** Place `i` of the snapshot holds the row whose id is `i` places from the end of the ascending ids. */
  lemma SnapshotAt(rows: Rows, i: nat) returns (id: int)
    requires i < |rows|
    ensures |SortedIds(rows.Keys)| == |NewestFirst(rows)| == |rows|
    ensures id == SortedIds(rows.Keys)[|rows| - 1 - i] && id in rows && NewestFirst(rows)[i] == rows[id]
  {
    var ids := SortedIds(rows.Keys);
    SortedIdsAreSorted(rows.Keys);
    assert |rows.Keys| == |rows|;
    forall k | 0 <= k < |ids| ensures ids[k] in rows { assert ids[k] in ids; }
    BackwardsAt(rows, ids, i);
    id := ids[|rows| - 1 - i];
  }

  /** The snapshot lists rows newest first. */
  lemma SnapshotDescends(rows: Rows, i: nat, j: nat)
    requires i < j < |rows| && forall id :: id in rows ==> rows[id].id == id
    ensures |NewestFirst(rows)| == |rows| && NewestFirst(rows)[i].id > NewestFirst(rows)[j].id
  {
    var a := SnapshotAt(rows, i);
    var b := SnapshotAt(rows, j);
    SortedIdsAreSorted(rows.Keys);
    AscendingOrder(SortedIds(rows.Keys), |rows| - 1 - j, |rows| - 1 - i);
  }

  /** The snapshot lists every row. */
  lemma SnapshotListsAll(rows: Rows, id: int)
    requires id in rows
    ensures |NewestFirst(rows)| == |rows| && rows[id] in NewestFirst(rows)
  {
    SortedIdsAreSorted(rows.Keys);
    assert |rows.Keys| == |rows|;
    var k :| 0 <= k < |rows| && SortedIds(rows.Keys)[k] == id;
    var same := SnapshotAt(rows, |rows| - 1 - k);
  }

  /** What a reconciliation would commit. */
  datatype Outcome = Outcome(rows: Rows, complete: bool, highwater: int, auditAfter: int, swept: bool)

  lemma NothingNewer(rows: Rows, now: nat, later: nat, ids: seq<int>)
    requires ids == [] || NewerAll(rows, ids, later)
    requires now <= later
    ensures NewerAll(rows, ids, now)
  {
  }

  /** Every row is as before, or was fetched later than `now`. */
  predicate KeptOrNewer(before: Rows, after: Rows, now: nat) {
    forall id {:trigger after[id]} :: id in after ==> (id in before && after[id] == before[id]) || after[id].at > now
  }

  /** Of these ids, every row there is was fetched later than `now`. */
  predicate NewerAll(rows: Rows, ids: seq<int>, now: nat) {
    forall id :: id in ids && id in rows ==> rows[id].at > now
  }

  lemma MergeIsNewer(world: World, now: nat, later: nat, rows: Rows, additions: seq<Row>, merged: Rows)
    requires Descending(world, now + 1, later, additions) && IsMerge(rows, additions, merged)
    ensures KeptOrNewer(rows, merged, now)
  {
    forall id | id in merged ensures (id in rows && merged[id] == rows[id]) || merged[id].at > now {
      if HasId(additions, id) {
        var i :| 0 <= i < |additions| && additions[i].id == id;
        assert merged[id] == additions[i];
      }
    }
  }

  lemma RecheckIsNewer(world: World, now: nat, from: nat, to: nat, first: Rows, before: Rows, after: Rows, ids: seq<int>)
    requires KeptOrNewer(first, before, now) && Rechecked(world, from, to, before, after) && now < from
    ensures KeptOrNewer(first, after, now)
    ensures NewerAll(before, ids, now) ==> NewerAll(after, ids, now)
  {
    forall id | id in after ensures (id in first && after[id] == first[id]) || after[id].at > now {
      assert (id in before && after[id] == before[id]) || after[id].at > now;
    }
  }

  /** What a reconciliation leaves was there before or fetched during it, and what it verified was fetched during it. */
  lemma NewerStage(world: World, now: nat, t1: nat, t2: nat, t3: nat, rows: Rows, additions: seq<Row>, merged: Rows, dirtied: Rows,
                   audited: Rows, kept: Rows, ids: seq<int>)
    requires now < t1 <= t2 <= t3 && Descending(world, now + 1, t1, additions) && IsMerge(rows, additions, merged)
    requires Rechecked(world, t1 + 1, t2, merged, dirtied) && Rechecked(world, t2 + 1, t3, dirtied, audited) && IsNewest(audited, kept)
    requires NewerAll(dirtied, ids, now)
    ensures KeptOrNewer(rows, kept, now) && NewerAll(kept, ids, now)
  {
    hide Descending, IsMerge, Rechecked;
    MergeIsNewer(world, now, t1, rows, additions, merged);
    RecheckIsNewer(world, now, t1 + 1, t2, rows, merged, dirtied, []);
    RecheckIsNewer(world, now, t2 + 1, t3, rows, dirtied, audited, ids);
  }

  /** Verify the ids a local change reported, wherever they are. */
  method VerifyDirty(world: World, now: nat, rows: Rows, ids: seq<int>, ghost auditAfter: int, ghost sweepStart: nat)
    returns (ok: bool, rows': Rows, now': nat)
    requires Fetched(world, 0, now, rows) && SweptUpTo(rows, auditAfter, sweepStart) && sweepStart <= now + 1
    ensures now' >= now
    ensures ok ==> Fetched(world, 0, now', rows') && SweptUpTo(rows', auditAfter, sweepStart)
    ensures ok ==> Rechecked(world, now + 1, now', rows, rows') && NewerAll(rows', ids, now)
  {
    rows' := rows;
    var verified;
    ok, verified, now' := Verify(world, now, ids);
    if !ok { return; }
    ReplaceRechecks(world, now + 1, now, now', rows, rows, ids, verified);
    ReplaceSweeps(world, now, now', rows, ids, verified, auditAfter, auditAfter, sweepStart);
    rows' := Replace(rows, ids, verified);
  }

  lemma MergeFetches(world: World, now: nat, later: nat, rows: Rows, additions: seq<Row>, merged: Rows, auditAfter: int, sweepStart: nat)
    requires Fetched(world, 0, now, rows) && SweptUpTo(rows, auditAfter, sweepStart) && sweepStart <= now + 1 && now < later
    requires Descending(world, now + 1, later, additions)
    requires IsMerge(rows, additions, merged)
    ensures Fetched(world, 0, later, merged) && SweptUpTo(merged, auditAfter, sweepStart)
  {
    forall id | id in merged
      ensures merged[id].id == id && merged[id].at <= later && Genuine(world, merged[id]) && (id <= auditAfter ==> merged[id].at >= sweepStart)
    {
      if HasId(additions, id) {
        var i :| 0 <= i < |additions| && additions[i].id == id;
        assert merged[id] == additions[i];
      } else {
        assert merged[id] == rows[id];
      }
    }
  }

  lemma FixedWithin(world: World, from: nat, to: nat, remote: Remote, a: nat, b: nat)
    requires Fixed(world, from, to, remote) && from <= a && b <= to
    ensures Fixed(world, a, b, remote)
  {
  }

  /** The walk of the new history, against a remote that stayed fixed. */
  lemma WalkSyncs(world: World, from: nat, to: nat, older: Remote, remote: Remote, rows: Rows, complete: bool,
                  after: int, highwater: int, additions: seq<Row>, merged: Rows) returns (newest: set<int>)
    requires from <= to && Fixed(world, from, to, remote) && Extends(older, remote) && Synced(rows, complete, after, older)
    requires WalkedAll(world, from, to, after, highwater, additions) && IsMerge(rows, additions, merged)
    ensures InRemote(merged, remote) && Holding(merged, remote, newest, complete && |additions| <= MAX_FILES) && Highest(highwater, remote)
  {
    newest := MergeHolds(world, from, to, older, remote, rows, complete, after, highwater, additions, merged);
    MergeInRemote(world, from, to, older, remote, rows, additions, merged);
    HighwaterIsHighest(world, from, to, older, remote, after, highwater, additions);
  }

  /** The rechecks and the truncation, against a remote that stayed fixed. */
  lemma RechecksSync(world: World, t1: nat, t2: nat, t3: nat, remote: Remote, merged: Rows, dirtied: Rows, audited: Rows, kept: Rows,
                     newest: set<int>, whole: bool, highwater: int)
    requires Fixed(world, t1 + 1, t2, remote) && Fixed(world, t2 + 1, t3, remote)
    requires InRemote(merged, remote) && Holding(merged, remote, newest, whole) && Highest(highwater, remote)
    requires Rechecked(world, t1 + 1, t2, merged, dirtied) && Rechecked(world, t2 + 1, t3, dirtied, audited)
    requires Fetched(world, 0, t2, dirtied) && Fetched(world, 0, t3, audited) && IsNewest(audited, kept)
    ensures Synced(kept, whole && |audited| <= MAX_FILES, highwater, remote)
  {
    RecheckHolds(world, t1 + 1, t2, remote, merged, dirtied, newest, whole);
    RecheckHolds(world, t2 + 1, t3, remote, dirtied, audited, newest, whole);
    TruncateSyncs(audited, kept, remote, newest, whole, highwater);
  }

  lemma WalkStage(world: World, now: nat, t1: nat, t3: nat, older: Remote, remote: Remote, rows: Rows, complete: bool,
                  after: int, highwater: int, additions: seq<Row>, merged: Rows) returns (newest: set<int>)
    requires now < t1 <= t3 && Fixed(world, now + 1, t3, remote) && Extends(older, remote) && Synced(rows, complete, after, older)
    requires WalkedAll(world, now + 1, t1, after, highwater, additions) && IsMerge(rows, additions, merged)
    ensures InRemote(merged, remote) && Holding(merged, remote, newest, complete && |additions| <= MAX_FILES) && Highest(highwater, remote)
  {
    FixedWithin(world, now + 1, t3, remote, now + 1, t1);
    newest := WalkSyncs(world, now + 1, t1, older, remote, rows, complete, after, highwater, additions, merged);
  }

  lemma RecheckStage(world: World, now: nat, t1: nat, t2: nat, t3: nat, remote: Remote, merged: Rows, dirtied: Rows, audited: Rows, kept: Rows,
                     newest: set<int>, whole: bool, highwater: int)
    requires now < t1 <= t2 <= t3 && Fixed(world, now + 1, t3, remote)
    requires InRemote(merged, remote) && Holding(merged, remote, newest, whole) && Highest(highwater, remote)
    requires Rechecked(world, t1 + 1, t2, merged, dirtied) && Rechecked(world, t2 + 1, t3, dirtied, audited)
    requires Fetched(world, 0, t2, dirtied) && Fetched(world, 0, t3, audited) && IsNewest(audited, kept)
    ensures Synced(kept, whole && |audited| <= MAX_FILES, highwater, remote)
  {
    FixedWithin(world, now + 1, t3, remote, t1 + 1, t2);
    FixedWithin(world, now + 1, t3, remote, t2 + 1, t3);
    RechecksSync(world, t1, t2, t3, remote, merged, dirtied, audited, kept, newest, whole, highwater);
  }

  /** Nothing changes when neither verification nor audit runs. */
  lemma UntouchedIsRechecked(world: World, from: nat, to: nat, rows: Rows)
    ensures Rechecked(world, from, to, rows, rows)
  {
  }

  /** The audit of a warm inventory, if one is due; a sweep starts now when the last one finished. */
  method Audit(world: World, now: nat, rows: Rows, auditAfter: int, audit: bool, force: bool, quota: nat, ghost sweepStart: nat)
    returns (ok: bool, rows': Rows, position: int, swept: bool, now': nat, ghost sweepStart': nat)
    requires Fetched(world, 0, now, rows) && SweptUpTo(rows, auditAfter, sweepStart) && sweepStart <= now + 1 && auditAfter >= 0
    ensures now' >= now && sweepStart' <= now' + 1 && (sweepStart' == sweepStart || (auditAfter == 0 && sweepStart' > now))
    ensures ok ==> Fetched(world, 0, now', rows') && SweptUpTo(rows', position, sweepStart') && position >= 0
    ensures ok ==> Rechecked(world, now + 1, now', rows, rows')
    ensures ok && swept ==> position == 0 && AllSince(rows', sweepStart')
    ensures ok && audit && force ==> swept
  {
    ok, rows', position, swept, now', sweepStart' := true, rows, auditAfter, false, now, sweepStart;
    UntouchedIsRechecked(world, now + 1, now, rows);
    if audit {
      if auditAfter == 0 { sweepStart' := now + 1; }
      NothingBelowZero(world, now, rows, auditAfter, sweepStart, sweepStart');
      ok, rows', position, swept, now' := Sweep(world, now, rows, auditAfter, force, quota, sweepStart');
    }
  }

  lemma WalkedParts(world: World, from: nat, to: nat, after: int, highwater: int, rows: seq<Row>)
    requires WalkedAll(world, from, to, after, highwater, rows)
    ensures Descending(world, from, to, rows) && highwater >= after
    ensures forall i, j :: 0 <= i < j < |rows| ==> rows[i].id > rows[j].id
  {
  }

  /** Truncation keeps what holds of every row. */
  lemma TruncateKeeps(world: World, now: nat, rows: Rows, kept: Rows, auditAfter: int, sweepStart: nat)
    requires Fetched(world, 0, now, rows) && SweptUpTo(rows, auditAfter, sweepStart) && IsNewest(rows, kept)
    ensures Fetched(world, 0, now, kept) && SweptUpTo(kept, auditAfter, sweepStart) && |kept| <= MAX_FILES
    ensures AllSince(rows, sweepStart) ==> AllSince(kept, sweepStart)
  {
    forall id | id in kept ensures id in rows && kept[id] == rows[id] { }
  }

  /**
    Compute the next state of the inventory from its present one. A finished sweep leaves only rows fetched since
    it began; against a remote that stays fixed meanwhile and only grew before, the result is its newest listing.
  */
  method Reconcile(world: World, now: nat, cold: bool, rows: Rows, complete: bool, after: int, auditAfter: int,
                   audit: bool, force: bool, quota: nat, dirtyIds: seq<int>, ghost sweepStart: nat, ghost older: Remote, ghost remote: Remote)
    returns (ok: bool, outcome: Outcome, now': nat, ghost sweepStart': nat)
    requires Fetched(world, 0, now, rows) && SweptUpTo(rows, auditAfter, sweepStart) && sweepStart <= now + 1 && auditAfter >= 0
    ensures now' > now
    ensures ok ==> Fetched(world, 0, now', outcome.rows) && |outcome.rows| <= MAX_FILES && outcome.highwater >= after && outcome.auditAfter >= 0
    ensures ok ==> SweptUpTo(outcome.rows, outcome.auditAfter, sweepStart')
    ensures sweepStart' <= now' + 1 && (sweepStart' == sweepStart || (auditAfter == 0 && sweepStart' > now))
    ensures ok && outcome.swept ==> outcome.auditAfter == 0 && AllSince(outcome.rows, sweepStart')
    ensures ok && !cold && audit && force ==> outcome.swept
    ensures ok && Fixed(world, now + 1, now', remote) && Extends(older, remote) && Synced(rows, complete, after, older) ==>
              Synced(outcome.rows, outcome.complete, outcome.highwater, remote)
    ensures ok ==> KeptOrNewer(rows, outcome.rows, now) && (cold || NewerAll(outcome.rows, dirtyIds, now))
  {
    hide *;
    sweepStart' := sweepStart;
    outcome := Outcome(rows, complete, after, auditAfter, false);
    var highwater, additions, current, position, swept;
    ok, highwater, additions, now' := History(world, now, after);
    if !ok { return; }
    WalkedParts(world, now + 1, now', after, highwater, additions);
    if highwater < after { return false, outcome, now', sweepStart'; }
    ghost var t1 := now';
    var whole := complete && |additions| <= MAX_FILES;
    current := Merge(rows, additions);
    MergeFetches(world, now, t1, rows, additions, current, auditAfter, sweepStart);
    ghost var merged := current;
    UntouchedIsRechecked(world, t1 + 1, t1, current);
    if !cold && dirtyIds != [] {
      ok, current, now' := VerifyDirty(world, now', current, dirtyIds, auditAfter, sweepStart);
      if !ok { return; }
    }
    ghost var dirtied, t2 := current, now';
    ok, current, position, swept, now', sweepStart' := Audit(world, now', current, auditAfter, audit && !cold, force, quota, sweepStart);
    if !ok { return; }
    ghost var audited, t3 := current, now';
    if |current| > MAX_FILES { whole := false; }
    current := Truncate(current);
    TruncateKeeps(world, t3, audited, current, position, sweepStart');
    outcome := Outcome(current, whole, highwater, position, swept);
    ghost var verified := if cold then [] else dirtyIds;
    NothingNewer(dirtied, now, t1, verified);
    NewerStage(world, now, t1, t2, t3, rows, additions, merged, dirtied, audited, current, verified);
    if Fixed(world, now + 1, now', remote) && Extends(older, remote) && Synced(rows, complete, after, older) {
      var newest := WalkStage(world, now, t1, t3, older, remote, rows, complete, after, highwater, additions, merged);
      RecheckStage(world, now, t1, t2, t3, remote, merged, dirtied, audited, current, newest, complete && |additions| <= MAX_FILES, highwater);
    }
  }

  /** Ids are positive, so a sweep that starts at the beginning has nothing behind it. */
  lemma NothingBelowZero(world: World, now: nat, rows: Rows, auditAfter: int, sweepStart: nat, sweepStart': nat)
    requires Fetched(world, 0, now, rows) && SweptUpTo(rows, auditAfter, sweepStart)
    requires sweepStart' == sweepStart || auditAfter == 0
    ensures SweptUpTo(rows, auditAfter, sweepStart')
  {
    forall id | id in rows ensures id > 0 {
      assert Genuine(world, rows[id]);
    }
  }

  /** The same messages with the same visible content. */
  predicate SameListing(a: Rows, b: Rows) {
    a.Keys == b.Keys && forall id :: id in a ==> a[id].body == b[id].body
  }

  /** The comparison made before the rows are replaced. */
  predicate ListingChanged(rows: Rows, complete: bool, next: Outcome) {
    || complete != next.complete || |rows| != |next.rows|
    || exists id :: id in rows && (id !in next.rows || rows[id].body != next.rows[id].body)
  }

  /** Comparing sizes and looking every old row up in the new ones decides whether the listing changed. */
  lemma ComparisonDecides(rows: Rows, complete: bool, next: Outcome)
    ensures ListingChanged(rows, complete, next) <==> !(SameListing(rows, next.rows) && complete == next.complete)
  {
    assert |rows.Keys| == |rows| && |next.rows.Keys| == |next.rows|;
    if forall id :: id in rows ==> id in next.rows {
      SubsetSize(rows.Keys, next.rows.Keys);
    }
  }

  /** The serial moves exactly when the visible listing does. */
  function NextSerial(serial: nat, rows: Rows, complete: bool, next: Outcome): (r: nat)
    requires serial <= U64_MAX
    ensures r <= U64_MAX && (r == serial <==> SameListing(rows, next.rows) && complete == next.complete)
  {
    ComparisonDecides(rows, complete, next);
    if ListingChanged(rows, complete, next) then WrappingNext(serial) else serial
  }

  /** A message gone before the sweep began, and not back since, is not in the rows a finished sweep leaves. */
  lemma DeletedBeforeSweepIsGone(world: World, now: nat, rows: Rows, sweepStart: nat, id: int)
    requires Fetched(world, 0, now, rows) && AllSince(rows, sweepStart)
    requires forall t: nat :: sweepStart <= t <= now ==> !Supported(world(t), id)
    ensures id !in rows
  {
    forall k | k in rows ensures k != id {
      assert Genuine(world, rows[k]);
    }
  }

  /** What one read is asked to do. */
  datatype Request = Request(force: bool, quota: nat, generation: nat, dirtyIds: seq<int>)

  /** Each remote listing extends the one before it. */
  predicate Growing(before: Remote, remotes: seq<Remote>)
    decreases |remotes|
  {
    remotes == [] || (Extends(before, remotes[0]) && Growing(remotes[0], remotes[1..]))
  }

  /** The last listing of a run. */
  function Latest(before: Remote, remotes: seq<Remote>): Remote
    decreases |remotes|
  {
    if remotes == [] then before else Latest(remotes[0], remotes[1..])
  }

  /** Read after read, from the end of one to `ends[0]`, the end of the next, the remote was `remotes[0]`. */
  ghost predicate Steady(world: World, from: nat, ends: seq<nat>, remotes: seq<Remote>)
    decreases |ends|
  {
    && |ends| == |remotes|
    && (ends == [] || (Fixed(world, from + 1, ends[0], remotes[0]) && Steady(world, ends[0], ends[1..], remotes[1..])))
  }

  lemma ExtendsTransitively(a: Remote, b: Remote, c: Remote)
    requires Extends(a, b) && Extends(b, c)
    ensures Extends(a, c)
  {
  }

  class Inventory {
    const world: World
    var now: nat
    var rows: Rows
    var complete: bool
    var auditAfter: int
    var cursor: Option<Cursor>
    var dirty: nat
    var serial: nat
    var snapshot: seq<Row>
    ghost var sweepStart: nat

    /** The high-water id: messages above it have not been walked yet. */
    function Highwater(): int
      reads this
    {
      if cursor.Some? then cursor.value.highwater else 0
    }

    ghost predicate Valid()
      reads this
    {
      && Fetched(world, 0, now, rows) && |rows| <= MAX_FILES
      && auditAfter >= 0 && SweptUpTo(rows, auditAfter, sweepStart) && sweepStart <= now + 1
      && (cursor.None? ==> rows == map[] && complete)
      && (cursor.Some? ==> cursor.value.ids == SortedIds(rows.Keys))
      && snapshot == NewestFirst(rows) && serial <= U64_MAX
    }

    /** The rows are the remote's newest listing. */
    predicate Agrees(remote: Remote)
      reads this
    {
      Synced(rows, complete, Highwater(), remote)
    }

    /** Before the first read nothing is known, which agrees with an empty remote. */
    constructor (world: World)
      ensures Valid() && this.world == world && Agrees(map[]) && rows == map[] && dirty == 0
    {
      this.world := world;
      now, rows, complete, auditAfter, cursor, dirty, serial, snapshot, sweepStart := 0, map[], true, 0, None, 0, 0, [], 0;
      new;
      assert SortedIds({}) == [];
      assert SupportedIds(map[]) == {};
    }

    /**
      One read of the folder. `older` is the remote the rows agreed with before, `remote` the remote during this
      read, when it stays fixed. A read that fails or need not reconcile changes nothing.
    */
    method Read(force: bool, quota: nat, generation: nat, dirtyIds: seq<int>, ghost older: Remote, ghost remote: Remote)
      returns (listing: Option<seq<Row>>, reconciled: bool, swept: bool)
      requires Valid()
      modifies this
      ensures Valid() && now >= old(now) && Highwater() >= old(Highwater())
      ensures listing.Some? ==> listing.value == NewestFirst(rows)
      ensures listing.None? ==> !reconciled
      // an answer without reconciling is only given when nothing asks for it
      ensures listing.Some? && !reconciled ==> !force && dirty == generation && cursor.Some?
      ensures !reconciled ==>
                && !swept && rows == old(rows) && complete == old(complete) && cursor == old(cursor)
                && auditAfter == old(auditAfter) && dirty == old(dirty) && serial == old(serial)
      ensures swept ==> auditAfter == 0 && AllSince(rows, sweepStart)
      ensures sweepStart == old(sweepStart) || (old(auditAfter) == 0 && sweepStart > old(now))
      ensures reconciled && force && old(cursor).Some? ==> swept
      ensures reconciled ==> cursor.Some? && dirty == generation
      ensures reconciled ==> (serial == old(serial) <==> SameListing(old(rows), rows) && complete == old(complete))
      ensures reconciled && Fixed(world, old(now) + 1, now, remote) && Extends(older, remote) && old(Agrees(older)) ==> Agrees(remote)
      // every row was there before or fetched during this read, and every id reported as changed was verified by it
      ensures reconciled ==> KeptOrNewer(old(rows), rows, old(now))
      ensures reconciled && old(dirty) != generation ==> NewerAll(rows, dirtyIds, old(now))
    {
      reconciled, swept := false, false;
      var auditDue, polledLately: bool := *, *;
      var isDirty := dirty != generation;
      var audit := force || (quota > 0 && cursor.Some? && auditDue);
      if !audit && !isDirty && cursor.Some? && polledLately { return Some(snapshot), false, false; }
      var cold := cursor.None?;
      var ok, outcome, later;
      ghost var start;
      ok, outcome, later, start := Reconcile(world, now, cold, rows, complete, Highwater(), auditAfter, audit, force, quota,
                                             if isDirty then dirtyIds else [], sweepStart, older, remote);
      now := later;
      var changedMeanwhile, stored: bool := *, *;
      if !ok || changedMeanwhile || !stored { return None, false, false; }
      Commit(outcome, later, generation, start);
      listing, reconciled, swept := Some(snapshot), true, outcome.swept;
    }

    /** One read of a growing remote: whatever the rows agreed with, they now agree with what the remote became, or still do. */
    method ReadNext(r: Request, ghost known: Remote, ghost before: Remote, ghost remote: Remote)
      returns (reconciled: bool, ghost known': Remote)
      requires Valid() && Extends(known, before) && Extends(before, remote)
      modifies this
      ensures Valid() && Extends(known', remote) && (known' == if reconciled then remote else known)
      ensures Fixed(world, old(now) + 1, now, remote) && old(Agrees(known)) ==> Agrees(known')
    {
      ExtendsTransitively(known, before, remote);
      var listing, swept;
      listing, reconciled, swept := Read(r.force, r.quota, r.generation, r.dirtyIds, known, remote);
      known' := if reconciled then remote else known;
    }

    /**
      Any number of reads of a remote that only gains messages with larger ids: as long as it stays fixed during each
      read, the rows agree with the remote of the last read that reconciled, whatever verification and audits ran.
    */
    method Reads(script: seq<Request>, ghost known: Remote, ghost before: Remote, ghost remotes: seq<Remote>)
      returns (reconciled: bool, ghost ends: seq<nat>, ghost known': Remote)
      requires Valid() && |remotes| == |script| && Extends(known, before) && Growing(before, remotes)
      modifies this
      ensures Valid() && |ends| == |script| && (script != [] ==> ends[|script| - 1] == now)
      ensures Steady(world, old(now), ends, remotes) && old(Agrees(known)) ==> Agrees(known')
      ensures Extends(known', Latest(before, remotes)) && (reconciled ==> known' == Latest(before, remotes))
      decreases |script|
    {
      hide Synced, Extends, Fixed, Valid;
      if script == [] { return false, [], known; }
      ghost var middle, rest;
      reconciled, middle := ReadNext(script[0], known, before, remotes[0]);
      ghost var end := now;
      if |script| == 1 { return reconciled, [end], middle; }
      reconciled, rest, known' := Reads(script[1..], middle, remotes[0], remotes[1..]);
      ends := [end] + rest;
      assert ends[1..] == rest;
    }

    /** Replace the whole state at once. */
    method Commit(next: Outcome, later: nat, generation: nat, ghost start: nat)
      requires serial <= U64_MAX
      modifies this
      ensures rows == next.rows && complete == next.complete && auditAfter == next.auditAfter && dirty == generation
      ensures now == later && sweepStart == start && snapshot == NewestFirst(rows)
      ensures cursor == Some(Cursor(next.highwater, SortedIds(rows.Keys))) && Highwater() == next.highwater
      ensures serial <= U64_MAX && (serial == old(serial) <==> SameListing(old(rows), rows) && complete == old(complete))
    {
      serial := NextSerial(serial, rows, complete, next);
      now, rows, complete, auditAfter, dirty, sweepStart := later, next.rows, next.complete, next.auditAfter, generation, start;
      cursor := Some(Cursor(next.highwater, SortedIds(next.rows.Keys)));
      snapshot := NewestFirst(next.rows);
    }
  }

  // ------------------------------------------------------------------ reporting local changes

  lemma InSuffix(s: seq<int>, from: nat, i: nat)
    requires from <= |s| && i < |s|
    ensures from <= i ==> s[i] in s[from..]
  {
    if from <= i { assert s[from..][i - from] == s[i]; }
  }

  /** The ids waiting for verification and newly reported ones, ascending and without duplicates, the newest up to the limit. */
  method Gather(waiting: seq<int>, ids: seq<int>) returns (waiting': seq<int>)
    ensures Ascending(waiting') && |waiting'| == Min(|IdSet(waiting) + IdSet(ids)|, MAX_FILES)
    ensures forall id :: id in waiting' ==> id in waiting || id in ids
    ensures forall id, k :: (id in waiting || id in ids) && id !in waiting' && k in waiting' ==> id < k
    ensures |IdSet(waiting) + IdSet(ids)| <= MAX_FILES ==> forall id :: id in waiting || id in ids ==> id in waiting'
  {
    var all := IdSet(waiting) + IdSet(ids);
    var sorted := SortedIds(all);
    SortedIdsAreSorted(all);
    var dropped := if |sorted| > MAX_FILES then |sorted| - MAX_FILES else 0;
    waiting' := sorted[dropped..];
    forall id | id in waiting' ensures id in waiting || id in ids {
      assert id in sorted;
      assert id in all;
    }
    forall id, k | (id in waiting || id in ids) && id !in waiting' && k in waiting' ensures id < k {
      assert id in all;
      var i :| 0 <= i < |sorted| && sorted[i] == id;
      var j :| 0 <= j < |waiting'| && waiting'[j] == k;
      InSuffix(sorted, dropped, i);
      AscendingOrder(sorted, i, dropped + j);
    }
  }

  /** The local changes of one folder that its readers have not verified yet. */
  class Dirty {
    var generation: nat
    var ids: seq<int>
    /** How often the generation was raised. */
    ghost var raised: nat

    ghost predicate Valid()
      reads this
    {
      generation == raised % U64_LIMIT && Ascending(ids) && |ids| <= MAX_FILES
    }

    /** Since a reader saw `taken` after `at` raises, ids have been added only together with another raise. */
    ghost predicate Seen(at: nat, taken: seq<int>)
      reads this
    {
      at <= raised && (at == raised ==> ids == taken || ids == [])
    }

    constructor ()
      ensures Valid() && ids == [] && generation == raised == 0
    {
      generation, ids, raised := 0, [], 0;
    }

    /** `changed`: report changed messages. What a reader has seen before stays marked as outdated. */
    method Changed(changed: seq<int>)
      requires Valid()
      modifies this
      ensures Valid() && generation != old(generation) && raised == old(raised) + 1
      ensures |ids| == Min(|IdSet(old(ids)) + IdSet(changed)|, MAX_FILES)
      ensures forall id :: id in ids ==> id in old(ids) || id in changed
      ensures forall id, k :: (id in old(ids) || id in changed) && id !in ids && k in ids ==> id < k
      ensures |IdSet(old(ids)) + IdSet(changed)| <= MAX_FILES ==> forall id :: id in old(ids) || id in changed ==> id in ids
      ensures forall at: nat, taken :: old(Seen(at, taken)) ==> Seen(at, taken) && at < raised
    {
      CounterWraps(raised);
      generation, raised := WrappingNext(generation), raised + 1;
      ids := Gather(ids, changed);
    }

    /** `invalidate`: every reader must reconcile again. */
    method Invalidate()
      requires Valid()
      modifies this`generation, this`raised
      ensures Valid() && generation != old(generation) && raised == old(raised) + 1
      ensures forall at: nat, taken :: old(Seen(at, taken)) ==> Seen(at, taken) && at < raised
    {
      CounterWraps(raised);
      generation, raised := WrappingNext(generation), raised + 1;
    }

    /** What a read sets out to verify. */
    method Take() returns (seen: nat, taken: seq<int>, ghost at: nat)
      requires Valid()
      ensures taken == ids && seen == generation
      ensures Seen(at, taken) && seen == at % U64_LIMIT && at == raised
    {
      seen, taken, at := generation, ids, raised;
    }

    /**
      After a read: nothing is left waiting exactly when nothing was reported since the read looked, and then it has
      verified all that was waiting. Otherwise everything stays waiting.
    */
    method Settle(seen: nat, taken: seq<int>, ghost at: nat)
      requires Valid() && Seen(at, taken) && seen == at % U64_LIMIT && raised < at + U64_LIMIT
      modifies this`ids
      ensures Valid() && ids == if raised == at then [] else old(ids)
      ensures raised == at ==> forall id :: id in old(ids) ==> id in taken
      ensures forall at': nat, taken' :: old(Seen(at', taken')) ==> Seen(at', taken')
    {
      SameCounter(at, raised);
      if generation == seen { ids := []; }
    }
  }

  // ------------------------------------------------------------------ one folder: local changes and reads together

  /** A row of a message reported as changed was fetched after the report, or the message is still waiting for verification. */
  ghost predicate NothingStale(rows: Rows, reportedAt: map<int, nat>, waiting: seq<int>, dropped: set<int>) {
    forall id :: id in reportedAt && id !in waiting && id !in dropped && id in rows ==> rows[id].at > reportedAt[id]
  }

  predicate ReportedBy(reportedAt: map<int, nat>, now: nat) {
    forall id :: id in reportedAt ==> reportedAt[id] <= now
  }

  /** A read keeps old rows or fetches new ones, so nothing becomes stale. */
  lemma ReadLeavesNothingStale(before: Rows, after: Rows, now: nat, reportedAt: map<int, nat>, waiting: seq<int>, dropped: set<int>)
    requires NothingStale(before, reportedAt, waiting, dropped) && KeptOrNewer(before, after, now) && ReportedBy(reportedAt, now)
    ensures NothingStale(after, reportedAt, waiting, dropped)
  {
  }

  lemma ReportedLater(reportedAt: map<int, nat>, now: nat, later: nat)
    requires ReportedBy(reportedAt, now) && now <= later
    ensures ReportedBy(reportedAt, later)
  {
  }

  /** What a read verified need not wait any longer. */
  lemma VerifiedIsNotStale(rows: Rows, now: nat, reportedAt: map<int, nat>, waiting: seq<int>, taken: seq<int>, dropped: set<int>)
    requires NothingStale(rows, reportedAt, waiting, dropped) && ReportedBy(reportedAt, now)
    requires NewerAll(rows, taken, now) && forall id :: id in waiting ==> id in taken
    ensures NothingStale(rows, reportedAt, [], dropped)
  {
  }

  /** Ids that were waiting, or should be, but no longer fit. */
  function Squeezed(waiting: seq<int>, ids: seq<int>, waiting': seq<int>): set<int> {
    set id | id in IdSet(waiting) + IdSet(ids) && id !in waiting'
  }

  /** A report makes its ids wait, unless they no longer fit. */
  lemma ReportLeavesNothingStale(rows: Rows, reportedAt: map<int, nat>, waiting: seq<int>, dropped: set<int>, ids: seq<int>, now: nat, waiting': seq<int>)
    requires NothingStale(rows, reportedAt, waiting, dropped) && ReportedBy(reportedAt, now)
    ensures NothingStale(rows, reportedAt + Stamped(ids, now), waiting', (dropped - IdSet(ids)) + Squeezed(waiting, ids, waiting'))
    ensures ReportedBy(reportedAt + Stamped(ids, now), now)
  {
  }

  lemma NothingSqueezed(waiting: seq<int>, ids: seq<int>, waiting': seq<int>)
    requires forall id :: id in waiting || id in ids ==> id in waiting'
    ensures Squeezed(waiting, ids, waiting') == {}
  {
    forall id ensures id !in Squeezed(waiting, ids, waiting') {
      assert id in IdSet(waiting) + IdSet(ids) ==> id in waiting || id in ids;
    }
  }

  function Stamped(ids: seq<int>, now: nat): map<int, nat> { map id | id in ids :: now }

  class Folder {
    const inventory: Inventory
    const changes: Dirty
    /** When each message was last reported, and which reports no longer fitted the waiting list. */
    ghost var reportedAt: map<int, nat>
    ghost var dropped: set<int>
    /** How often the generation had been raised when the last successful read looked. */
    ghost var readAt: nat

    ghost predicate Fresh()
      reads this, inventory, changes
    {
      && inventory.Valid() && changes.Valid() && ReportedBy(reportedAt, inventory.now)
      && NothingStale(inventory.rows, reportedAt, changes.ids, dropped)
    }

    ghost predicate Valid()
      reads this, inventory, changes
    {
      && Fresh() && changes.raised < U64_LIMIT
      && readAt <= changes.raised && inventory.dirty == readAt && (changes.raised == readAt ==> changes.ids == [])
    }

    constructor (world: World)
      ensures Valid() && fresh(inventory) && fresh(changes) && inventory.world == world && reportedAt == map[] && changes.raised == 0
    {
      inventory := new Inventory(world);
      changes := new Dirty();
      reportedAt, dropped, readAt := map[], {}, 0;
    }

    /** Messages are reported as changed. Only ids beyond the newest 50,000 waiting ones are given up. */
    method Report(ids: seq<int>)
      requires Fresh()
      modifies this`reportedAt, this`dropped, changes
      ensures Fresh() && changes.raised == old(changes.raised) + 1
      ensures reportedAt == old(reportedAt) + Stamped(ids, inventory.now)
      ensures dropped == (old(dropped) - IdSet(ids)) + Squeezed(old(changes.ids), ids, changes.ids)
      ensures |IdSet(old(changes.ids)) + IdSet(ids)| <= MAX_FILES ==> dropped == old(dropped) - IdSet(ids)
      ensures forall at: nat, taken :: old(changes.Seen(at, taken)) ==> changes.Seen(at, taken) && at < changes.raised
    {
      hide NothingStale, ReportedBy, Squeezed, Stamped, IdSet, Fetched, SweptUpTo, NewestFirst, SortedIds, Ascending, Inventory.Valid, Dirty.Valid;
      ghost var waiting := changes.ids;
      changes.Changed(ids);
      ReportLeavesNothingStale(inventory.rows, reportedAt, waiting, dropped, ids, inventory.now, changes.ids);
      reportedAt := reportedAt + Stamped(ids, inventory.now);
      dropped := (dropped - IdSet(ids)) + Squeezed(waiting, ids, changes.ids);
      if |IdSet(waiting) + IdSet(ids)| <= MAX_FILES { NothingSqueezed(waiting, ids, changes.ids); }
    }

    /**
      A read of the folder while further changes are reported. If it succeeds and nothing was reported since it looked,
      nothing is left waiting; and no row of a reported message is stale.
    */
    method ReadFolder(force: bool, quota: nat, during: seq<seq<int>>) returns (listing: Option<seq<Row>>, reconciled: bool)
      requires Valid() && changes.raised + |during| < U64_LIMIT
      modifies this, inventory, changes
      ensures Valid() && changes.raised == old(changes.raised) + |during|
      ensures reconciled && during == [] ==> changes.ids == []
      ensures listing.Some? ==> listing.value == NewestFirst(inventory.rows)
    {
      hide NothingStale, Squeezed, Stamped, IdSet, Fetched, SweptUpTo, NewestFirst, SortedIds, Ascending, Inventory.Valid, KeptOrNewer, NewerAll, Inventory.Agrees, Synced, Dirty.Valid, Fixed, Extends, AllSince, SameListing, WrappingNext, ReportedBy;
      ghost var before, looked := inventory.rows, inventory.now;
      var seen, taken;
      ghost var at;
      seen, taken, at := changes.Take();
      SmallCounter(at);
      var swept;
      listing, reconciled, swept := inventory.Read(force, quota, seen, taken, map[], map[]);
      if reconciled { ReadLeavesNothingStale(before, inventory.rows, looked, reportedAt, changes.ids, dropped); }
      ReportedLater(reportedAt, looked, inventory.now);
      ReportAll(during, at, taken);
      if reconciled {
        if changes.raised == at {
          VerifiedIsNotStale(inventory.rows, looked, reportedAt, changes.ids, taken, dropped);
        }
        changes.Settle(seen, taken, at);
        readAt := at;
      }
    }

    /** Further changes, reported one after the other. */
    method ReportAll(during: seq<seq<int>>, ghost at: nat, ghost taken: seq<int>)
      requires Fresh() && changes.Seen(at, taken)
      modifies this`reportedAt, this`dropped, changes
      ensures Fresh() && changes.Seen(at, taken) && changes.raised == old(changes.raised) + |during|
      ensures during == [] ==> reportedAt == old(reportedAt) && dropped == old(dropped) && changes.ids == old(changes.ids)
    {
      for i := 0 to |during|
        invariant Fresh() && changes.Seen(at, taken) && changes.raised == old(changes.raised) + i
        invariant i == 0 ==> reportedAt == old(reportedAt) && dropped == old(dropped) && changes.ids == old(changes.ids)
      {
        Report(during[i]);
      }
    }
  }

  /** What happens to a folder. */
  datatype FolderEvent = Reported(ids: seq<int>) | Requested(force: bool, quota: nat, during: seq<seq<int>>)

  /** How often an event raises the generation. */
  function Raises(event: FolderEvent): nat { if event.Reported? then 1 else |event.during| }

  function AllRaises(script: seq<FolderEvent>): nat {
    if script == [] then 0 else AllRaises(script[..|script| - 1]) + Raises(script[|script| - 1])
  }

  lemma {:induction false} RaisesGrow(script: seq<FolderEvent>, n: nat)
    requires n <= |script|
    ensures AllRaises(script[..n]) <= AllRaises(script)
    decreases |script|
  {
    if n < |script| {
      var init := script[..|script| - 1];
      RaisesGrow(init, n);
      assert init[..n] == script[..n];
    } else {
      assert script[..n] == script;
    }
  }

  lemma RaisesNext(script: seq<FolderEvent>, i: nat)
    requires i < |script|
    ensures AllRaises(script[..i + 1]) == AllRaises(script[..i]) + Raises(script[i])
  {
    assert script[..i + 1][..i] == script[..i];
  }

  /**
    Any reports and reads of a folder, reads overlapping with reports, succeeding or failing: of every message ever
    reported, it is still waiting for verification, or it was given up beyond the newest 50,000 waiting ones, or the
    inventory holds no row of it fetched before the report.
  */
  method RunFolder(world: World, script: seq<FolderEvent>) returns (folder: Folder)
    requires AllRaises(script) < U64_LIMIT
    ensures fresh(folder) && folder.Valid()
    ensures NothingStale(folder.inventory.rows, folder.reportedAt, folder.changes.ids, folder.dropped)
  {
    hide NothingStale, ReportedBy, Fetched, SweptUpTo, NewestFirst, SortedIds, Ascending, Inventory.Valid, Dirty.Valid;
    folder := new Folder(world);
    for i := 0 to |script|
      invariant fresh(folder) && fresh(folder.inventory) && fresh(folder.changes)
      invariant folder.Valid() && folder.changes.raised == AllRaises(script[..i])
    {
      RaisesNext(script, i);
      RaisesGrow(script, i + 1);
      match script[i] {
        case Reported(ids) => folder.Report(ids);
        case Requested(force, quota, during) => var listing, reconciled := folder.ReadFolder(force, quota, during);
      }
    }
  }
}

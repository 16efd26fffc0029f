/**
  The weekly bandwidth ledger (app/src-tauri/src/bandwidth.rs): durable usage, in-memory holds and a limit, all
  unsigned 64-bit. Every method of the manager runs under its mutex. Dates are day numbers, day 0 a Monday.
*/
module Bandwidth {
  import opened Common

  const MAX_HOLDS := 512

  const WEEKLY_LIMIT := 250 * 1024 * 1024 * 1024

  datatype Direction = Upload | Download

  datatype Hold = Hold(bytes: nat, direction: Direction)

  datatype Stats = Stats(date: int, up: nat, down: nat, limit: nat, weekly: bool)

  /** One committed reservation. */
  datatype Charge = Charge(id: int, direction: Direction, bytes: nat)

  /** The Monday that starts the week of a day. */
  function WeekStart(day: int): int { day - day % 7 }

  lemma WeekStartIsMonday(day: int)
    ensures WeekStart(day) % 7 == 0 && WeekStart(day) <= day < WeekStart(day) + 7
    ensures WeekStart(WeekStart(day)) == WeekStart(day)
  {
  }

  // ------------------------------------------------------------------ sums

  type Holds = map<int, Hold>

  /** All bytes on hold. */
  function Held(holds: Holds): nat
    decreases |holds|
  {
    if holds.Keys == {} then 0
    else
      HasLeast(holds.Keys);
      var id :| IsLeast(holds.Keys, id);
      assert |holds - {id}| < |holds| by { assert (holds - {id}).Keys == holds.Keys - {id}; }
      holds[id].bytes + Held(holds - {id})
  }

  /** The sum does not depend on the order the holds are added in. */
  lemma {:induction false} HeldWithout(holds: Holds, id: int)
    requires id in holds
    ensures Held(holds) == holds[id].bytes + Held(holds - {id})
    decreases |holds|
  {
    HasLeast(holds.Keys);
    var least :| IsLeast(holds.Keys, least);
    assert Held(holds) == holds[least].bytes + Held(holds - {least});
    if least != id {
      var others, rest := holds - {least}, holds - {id};
      assert others.Keys == holds.Keys - {least} && rest.Keys == holds.Keys - {id};
      HeldWithout(others, id);
      assert IsLeast(rest.Keys, least);
      assert Held(rest) == rest[least].bytes + Held(rest - {least});
      assert rest - {least} == others - {id};
    }
  }

  lemma HeldWith(holds: Holds, id: int, hold: Hold)
    ensures Held(holds[id := hold]) == Held(holds) + hold.bytes - (if id in holds then holds[id].bytes else 0)
  {
    HeldWithout(holds[id := hold], id);
    if id in holds {
      HeldWithout(holds, id);
      assert holds[id := hold] - {id} == holds - {id};
    } else {
      assert holds[id := hold] - {id} == holds;
    }
  }

  /** Bytes charged in one direction by the ledger from position `from` on. */
  function Charged(ledger: seq<Charge>, from: nat, direction: Direction): nat
    decreases |ledger|
  {
    if |ledger| <= from then 0
    else
      var last := ledger[|ledger| - 1];
      Charged(ledger[..|ledger| - 1], from, direction) + (if last.direction == direction then last.bytes else 0)
  }

  lemma ChargedSnoc(ledger: seq<Charge>, from: nat, direction: Direction, charge: Charge)
    requires from <= |ledger|
    ensures Charged(ledger + [charge], from, direction) == Charged(ledger, from, direction) + (if charge.direction == direction then charge.bytes else 0)
  {
    assert (ledger + [charge])[..|ledger|] == ledger;
  }

  predicate ChargedOnce(ledger: seq<Charge>) {
    forall i, j :: 0 <= i < j < |ledger| ==> ledger[i].id != ledger[j].id
  }

  predicate InLedger(ledger: seq<Charge>, id: int) {
    exists i :: 0 <= i < |ledger| && ledger[i].id == id
  }

  lemma InLedgerSnoc(ledger: seq<Charge>, charge: Charge, id: int)
    ensures InLedger(ledger + [charge], id) <==> InLedger(ledger, id) || charge.id == id
  {
    var longer := ledger + [charge];
    if InLedger(ledger, id) {
      var i :| 0 <= i < |ledger| && ledger[i].id == id;
      assert longer[i].id == id;
    }
    if charge.id == id { assert longer[|ledger|].id == id; }
  }

  /** What the accounting is worth: nothing is on hold that was charged, and the totals fit. */
  ghost predicate Sound(holds: Holds, nextId: nat, ledger: seq<Charge>) {
    && (forall id :: id in holds ==> 0 < id <= nextId && !InLedger(ledger, id))
    && (forall id :: InLedger(ledger, id) ==> 0 < id <= nextId)
    && ChargedOnce(ledger) && |holds| <= MAX_HOLDS
  }

  /** Usage is what the file held when the window began, plus everything charged since. */
  predicate Explained(up: nat, down: nat, baseUp: nat, baseDown: nat, ledger: seq<Charge>, from: nat) {
    && from <= |ledger|
    && up == baseUp + Charged(ledger, from, Upload)
    && down == baseDown + Charged(ledger, from, Download)
  }

  lemma SoundWithHold(holds: Holds, nextId: nat, ledger: seq<Charge>, hold: Hold)
    requires Sound(holds, nextId, ledger) && |holds| < MAX_HOLDS
    ensures Sound(holds[nextId + 1 := hold], nextId + 1, ledger)
  {
    assert holds[nextId + 1 := hold].Keys == holds.Keys + {nextId + 1};
  }

  lemma NewIdIsFree(holds: Holds, nextId: nat, ledger: seq<Charge>)
    requires Sound(holds, nextId, ledger)
    ensures nextId + 1 !in holds
  {
  }

  lemma SoundResized(holds: Holds, nextId: nat, ledger: seq<Charge>, id: int, hold: Hold)
    requires Sound(holds, nextId, ledger) && id in holds
    ensures Sound(holds[id := hold], nextId, ledger)
  {
    assert holds[id := hold].Keys == holds.Keys;
  }

  lemma SoundReleased(holds: Holds, nextId: nat, ledger: seq<Charge>, id: int)
    requires Sound(holds, nextId, ledger)
    ensures Sound(holds - {id}, nextId, ledger)
    ensures Held(holds - {id}) == Held(holds) - (if id in holds then holds[id].bytes else 0)
  {
    assert (holds - {id}).Keys == holds.Keys - {id};
    if id in holds { HeldWithout(holds, id); } else { assert holds - {id} == holds; }
  }

  lemma SoundCharged(holds: Holds, nextId: nat, ledger: seq<Charge>, id: int)
    requires Sound(holds, nextId, ledger) && id in holds
    ensures Sound(holds - {id}, nextId, ledger + [Charge(id, holds[id].direction, holds[id].bytes)])
  {
    var charge := Charge(id, holds[id].direction, holds[id].bytes);
    SoundReleased(holds, nextId, ledger, id);
    forall k ensures InLedger(ledger + [charge], k) <==> InLedger(ledger, k) || k == id { InLedgerSnoc(ledger, charge, k); }
    forall i, j | 0 <= i < j < |ledger + [charge]| ensures (ledger + [charge])[i].id != (ledger + [charge])[j].id {
      if j == |ledger| { assert ledger[i].id == id ==> InLedger(ledger, id); }
    }
  }

  /** The usage a new week starts with, or the same usage within the week or when the clock went back. */
  function Rolled(s: Stats, today: int): Stats {
    if s.date < WeekStart(today) then s.(up := 0, down := 0) else s
  }

  /** `load`, once the file parses: a zero limit or usage that overflows is an error. */
  function Load(file: Option<Stats>): Option<Stats> {
    if file.None? || file.value.limit == 0 || file.value.limit > U64_MAX || file.value.up + file.value.down > U64_MAX then None else file
  }

  /** `checked_add`. */
  function CheckedAdd(a: nat, b: nat): Option<nat> { if a + b <= U64_MAX then Some(a + b) else None }

  /** Usage with a hold charged in its own direction. */
  function WithCharge(s: Stats, hold: Hold): Stats {
    if hold.direction == Upload then s.(up := s.up + hold.bytes) else s.(down := s.down + hold.bytes)
  }

  /** Charging a hold keeps the accounting sound and the total of usage and holds the same. */
  lemma SettledState(holds: Holds, nextId: nat, ledger: seq<Charge>, id: int, s: Stats, baseUp: nat, baseDown: nat, from: nat)
    requires Sound(holds, nextId, ledger) && id in holds && Explained(s.up, s.down, baseUp, baseDown, ledger, from)
    ensures var charged := ledger + [Charge(id, holds[id].direction, holds[id].bytes)];
            var next := WithCharge(s, holds[id]);
            && Sound(holds - {id}, nextId, charged) && Explained(next.up, next.down, baseUp, baseDown, charged, from)
            && next.up + next.down + Held(holds - {id}) == s.up + s.down + Held(holds)
  {
    var charge := Charge(id, holds[id].direction, holds[id].bytes);
    SoundCharged(holds, nextId, ledger, id);
    HeldWithout(holds, id);
    ChargedSnoc(ledger, from, Upload, charge);
    ChargedSnoc(ledger, from, Download, charge);
  }

  lemma NothingYet(s: Stats)
    ensures Sound(map[], 0, []) && Held(map[]) == 0 && Explained(s.up, s.down, s.up, s.down, [], 0)
  {
  }

  class BandwidthManager {
    var stats: Stats
    var limit: nat
    var holds: Holds
    var nextId: nat
    var persistenceError: bool
    var loadError: bool
    /** What the accounting file holds, once it has been written. */
    var disk: Option<Stats>
    /** Every charge ever made, the position where the present window began, and the usage it began with. */
    ghost var ledger: seq<Charge>
    ghost var windowFrom: nat
    ghost var baseUp: nat
    ghost var baseDown: nat

    /** Committed usage and holds together. */
    function Used(): nat
      reads this
    {
      stats.up + stats.down + Held(holds)
    }

    ghost predicate Valid()
      reads this
    {
      && Sound(holds, nextId, ledger) && nextId <= U64_MAX
      && Used() <= U64_MAX && 0 < limit <= U64_MAX && stats.limit == limit
      && Explained(stats.up, stats.down, baseUp, baseDown, ledger, windowFrom)
      && (loadError ==> holds == map[])
      && (disk.Some? && !persistenceError && !loadError ==> disk.value == stats)
    }

    /** Open the accounting on its file; a missing file starts a new one, an invalid one is kept and blocks everything. */
    constructor (file: Option<Stats>, missing: bool, today: int)
      ensures Valid() && holds == map[] && nextId == 0 && ledger == []
      ensures loadError <==> !missing && Load(file).None?
      ensures !missing && !loadError ==> stats == file.value
    {
      var fallback := Stats(WeekStart(today), 0, 0, WEEKLY_LIMIT, true);
      var loaded := if missing then Some(fallback) else Load(file);
      var start := if loaded.Some? then loaded.value else fallback;
      stats, limit, holds, nextId, persistenceError := start, start.limit, map[], 0, false;
      loadError, disk := loaded.None?, if missing then None else loaded;
      ledger, windowFrom, baseUp, baseDown := [], 0, start.up, start.down;
      new;
      NothingYet(stats);
    }

    /** Write the accounting; the file changes at once or not at all. */
    method Persist() returns (ok: bool)
      requires Valid()
      modifies this`persistenceError, this`disk
      ensures Valid() && persistenceError == !ok
      ensures disk == if ok then Some(stats) else old(disk)
    {
      ok := *;
      persistenceError := !ok;
      if ok { disk := Some(stats); }
    }

    /** Adopt a file that has become loadable; no hold can exist yet. */
    method Reload(file: Stats)
      requires Valid() && loadError && Load(Some(file)).Some?
      modifies this
      ensures Valid() && !loadError && stats == file && holds == old(holds) && nextId == old(nextId) && ledger == old(ledger)
    {
      stats, limit, loadError, disk := file, file.limit, false, Some(file);
      windowFrom, baseUp, baseDown := |ledger|, file.up, file.down;
      assert Held(holds) == 0;
    }

    /** Replace date, period and possibly usage, and write the result. */
    method Renew(date: int, reset: bool) returns (ok: bool)
      requires Valid()
      modifies this
      ensures Valid() && persistenceError == !ok && loadError == old(loadError)
      ensures stats == Stats(date, if reset then 0 else old(stats).up, if reset then 0 else old(stats).down, old(limit), true)
      ensures limit == old(limit) && holds == old(holds) && nextId == old(nextId) && ledger == old(ledger)
    {
      stats := Stats(date, if reset then 0 else stats.up, if reset then 0 else stats.down, limit, true);
      if reset { windowFrom, baseUp, baseDown := |ledger|, 0, 0; }
      ok := *;
      persistenceError := !ok;
      if ok { disk := Some(stats); }
    }

    /** Why nothing may be admitted: unreadable or unwritable accounting, or a clock behind the window's week. */
    predicate Blocked(today: int)
      reads this
    {
      loadError || persistenceError || WeekStart(stats.date) > WeekStart(today)
    }

    /** `prepare`: load what could not be loaded, roll the week over, and make sure the file can be written. */
    method Prepare(today: int, file: Option<Stats>) returns (ok: bool)
      requires Valid()
      modifies this
      ensures Valid() && holds == old(holds) && nextId == old(nextId) && ledger == old(ledger)
      ensures !old(loadError) ==> !loadError && stats.up == Rolled(old(stats), today).up && stats.down == Rolled(old(stats), today).down && limit == old(limit)
      ensures ok ==> stats.date == WeekStart(today)
      ensures ok <==> !Blocked(today)
      ensures !old(loadError) && WeekStart(old(stats).date) > WeekStart(today) ==> !ok && stats == old(stats)
      ensures !old(loadError) ==> Used() <= old(Used())
    {
      if loadError {
        var loaded := Load(file);
        if loaded.None? { return false; }
        Reload(loaded.value);
      }
      var monday := WeekStart(today);
      WeekStartIsMonday(stats.date);
      if WeekStart(stats.date) > monday { return false; }
      if stats.date != monday || !stats.weekly {
        ok := Renew(monday, stats.date < monday);
        if !ok { return; }
      }
      ok := true;
      if persistenceError { ok := Persist(); }
    }

    /** `used`: holds are added in no particular order, every addition checked. */
    method SumUsed() returns (total: Option<nat>)
      ensures total == if Used() <= U64_MAX then Some(Used()) else None
    {
      total := CheckedAdd(stats.up, stats.down);
      if total.None? { return; }
      var left := holds;
      while left.Keys != {}
        invariant total.Some? && total.value <= U64_MAX && total.value + Held(left) == Used()
        decreases |left|
      {
        HasLeast(left.Keys);
        var id :| id in left;
        HeldWithout(left, id);
        assert (left - {id}).Keys == left.Keys - {id};
        total := CheckedAdd(total.value, left[id].bytes);
        if total.None? { return; }
        left := left - {id};
      }
    }

    /** Admit a transfer: its bytes are put on hold only if everything used and on hold stays within the limit. */
    method Reserve(direction: Direction, bytes: nat, today: int, file: Option<Stats>) returns (id: Option<int>)
      requires Valid() && bytes <= U64_MAX
      modifies this
      ensures Valid() && ledger == old(ledger)
      ensures id.Some? ==> !loadError && nextId == old(nextId) + 1 && id.value == nextId && holds == old(holds)[nextId := Hold(bytes, direction)] && Used() <= limit
      ensures id.None? ==> holds == old(holds) && nextId == old(nextId) && (!old(loadError) ==> Used() <= old(Used()))
      // nothing else is refused
      ensures id.None? ==> Blocked(today) || Used() + bytes > limit || |holds| == MAX_HOLDS || nextId == U64_MAX
      ensures !old(loadError) ==> stats.up == Rolled(old(stats), today).up && stats.down == Rolled(old(stats), today).down && limit == old(limit)
    {
      id := None;
      var ok := Prepare(today, file);
      if !ok { return; }
      id := Admit(direction, bytes);
    }

    /** The checks and the new hold, in an accounting that has been prepared. */
    method Admit(direction: Direction, bytes: nat) returns (id: Option<int>)
      requires Valid() && !loadError && bytes <= U64_MAX
      modifies this`persistenceError, this`disk, this`nextId, this`holds
      ensures Valid()
      ensures id.Some? ==> nextId == old(nextId) + 1 && id.value == nextId && holds == old(holds)[nextId := Hold(bytes, direction)] && Used() <= limit
      ensures id.None? ==> holds == old(holds) && nextId == old(nextId)
      ensures id.None? ==> persistenceError || Used() + bytes > limit || |holds| == MAX_HOLDS || nextId == U64_MAX
    {
      id := None;
      var used := SumUsed();
      if used.None? { return; }
      var total := CheckedAdd(used.value, bytes);
      if total.None? || total.value > stats.limit { return; }
      if |holds| >= MAX_HOLDS || nextId == U64_MAX { return; }
      var ok := Persist();
      if !ok { return; }
      Place(Hold(bytes, direction));
      id := Some(nextId);
    }

    /** Put a hold that fits under a new identity. */
    method Place(hold: Hold)
      requires Valid() && !loadError && |holds| < MAX_HOLDS && nextId < U64_MAX && Used() + hold.bytes <= limit
      modifies this`nextId, this`holds
      ensures Valid() && nextId == old(nextId) + 1 && holds == old(holds)[nextId := hold] && Used() <= limit
    {
      NewIdIsFree(holds, nextId, ledger);
      hide Sound, Explained, Held, Charged;
      SoundWithHold(holds, nextId, ledger, hold);
      HeldWith(holds, nextId + 1, hold);
      nextId := nextId + 1;
      holds := holds[nextId := hold];
    }

    /** Drop a hold; nothing is charged or refunded. */
    method Release(id: int)
      requires Valid()
      modifies this`holds
      ensures Valid() && holds == old(holds) - {id} && Used() <= old(Used())
    {
      SoundReleased(holds, nextId, ledger, id);
      holds := holds - {id};
    }

    /** Change a hold's size; growing it must stay within the limit. */
    method Resize(id: int, bytes: nat, today: int, file: Option<Stats>) returns (ok: bool)
      requires Valid() && bytes <= U64_MAX
      modifies this
      ensures Valid() && ledger == old(ledger) && nextId == old(nextId)
      ensures ok ==> id in old(holds) && holds == old(holds)[id := old(holds)[id].(bytes := bytes)] && (bytes > old(holds)[id].bytes ==> Used() <= limit)
      ensures !ok ==> holds == old(holds)
      ensures !ok ==> Blocked(today) || id !in holds || (bytes > holds[id].bytes && Used() - holds[id].bytes + bytes > limit)
      ensures !old(loadError) && (!ok || bytes <= old(holds)[id].bytes) ==> Used() <= old(Used())
      ensures !old(loadError) ==> stats.up == Rolled(old(stats), today).up && stats.down == Rolled(old(stats), today).down && limit == old(limit)
    {
      ok := Prepare(today, file);
      if !ok { return; }
      if id !in holds { return false; }
      ok := Adjust(id, bytes);
    }

    /** The checks and the new size of a hold, in an accounting that has been prepared. */
    method Adjust(id: int, bytes: nat) returns (ok: bool)
      requires Valid() && !loadError && id in holds && bytes <= U64_MAX
      modifies this`persistenceError, this`disk, this`holds
      ensures Valid()
      ensures ok ==> holds == old(holds)[id := old(holds)[id].(bytes := bytes)] && (bytes > old(holds)[id].bytes ==> Used() <= limit)
      ensures ok && bytes <= old(holds)[id].bytes ==> Used() <= old(Used())
      ensures !ok ==> holds == old(holds)
      ensures !ok ==> persistenceError || (bytes > holds[id].bytes && Used() - holds[id].bytes + bytes > limit)
    {
      var before := holds[id].bytes;
      hide Sound, Explained, Held, Charged;
      HeldWithout(holds, id);
      HeldWith(holds, id, holds[id].(bytes := bytes));
      var used := SumUsed();
      if used.None? || used.value < before { return false; }
      var total := CheckedAdd(used.value - before, bytes);
      if total.None? || (bytes > before && total.value > stats.limit) { return false; }
      ok := Persist();
      if !ok { return; }
      SoundResized(holds, nextId, ledger, id, holds[id].(bytes := bytes));
      holds := holds[id := holds[id].(bytes := bytes)];
    }

    /** Change the limit in force, or leave everything as it was. */
    method SetLimit(bytes: nat, today: int, file: Option<Stats>) returns (ok: bool)
      requires Valid() && bytes <= U64_MAX
      modifies this
      ensures Valid() && ledger == old(ledger) && nextId == old(nextId) && holds == old(holds)
      ensures ok ==> limit == bytes > 0
      ensures !ok ==> bytes == 0 || Blocked(today)
      ensures bytes == 0 ==> !ok && stats == old(stats) && limit == old(limit)
      ensures bytes > 0 && !old(loadError) ==> stats.up == Rolled(old(stats), today).up && stats.down == Rolled(old(stats), today).down
      ensures !old(loadError) ==> Used() <= old(Used()) && (!ok ==> limit == old(limit))
    {
      if bytes == 0 { return false; }
      ok := Prepare(today, file);
      if !ok { return; }
      var previous := stats;
      stats := stats.(limit := bytes);
      ok := *;
      persistenceError := !ok;
      if !ok {
        stats := previous;
        return;
      }
      disk := Some(stats);
      limit := bytes;
    }

    /**
      Charge a finished transfer: exactly its hold, in its direction, at its present size, once. The charge is kept
      even when the window could not be renewed or the file not be written, and never overflows.
    */
    method Commit(id: int, today: int, file: Option<Stats>) returns (ok: bool)
      requires Valid()
      modifies this
      ensures Valid() && nextId == old(nextId)
      ensures id !in old(holds) ==> !ok && holds == old(holds) && ledger == old(ledger)
      ensures id in old(holds) ==>
                var hold := old(holds)[id];
                && holds == old(holds) - {id} && ledger == old(ledger) + [Charge(id, hold.direction, hold.bytes)]
                && stats.up == Rolled(old(stats), today).up + (if hold.direction == Upload then hold.bytes else 0)
                && stats.down == Rolled(old(stats), today).down + (if hold.direction == Download then hold.bytes else 0)
      ensures !old(loadError) ==> Used() <= old(Used()) && limit == old(limit)
    {
      var prepared := Prepare(today, file);
      if id !in holds { return false; }
      ok := Settle(id);
    }

    /** Move a hold into the usage of its direction; nothing is written yet. */
    method MoveToUsage(id: int)
      requires Valid() && id in holds
      modifies this`stats, this`holds, this`ledger, this`persistenceError
      ensures Valid() && persistenceError && holds == old(holds) - {id} && Used() == old(Used())
      ensures ledger == old(ledger) + [Charge(id, old(holds)[id].direction, old(holds)[id].bytes)]
      ensures stats == WithCharge(old(stats), old(holds)[id])
    {
      SettledState(holds, nextId, ledger, id, stats, baseUp, baseDown, windowFrom);
      hide Sound, Explained, Held, Charged;
      ledger := ledger + [Charge(id, holds[id].direction, holds[id].bytes)];
      stats, holds, persistenceError := WithCharge(stats, holds[id]), holds - {id}, true;
    }

    /** Charge a hold and write the result. */
    method Settle(id: int) returns (ok: bool)
      requires Valid() && id in holds
      modifies this
      ensures Valid() && nextId == old(nextId) && limit == old(limit) && holds == old(holds) - {id} && Used() == old(Used())
      ensures ledger == old(ledger) + [Charge(id, old(holds)[id].direction, old(holds)[id].bytes)]
      ensures stats == WithCharge(old(stats), old(holds)[id])
    {
      MoveToUsage(id);
      ok := Persist();
    }
  }

  /** The guard a transfer holds; dropping it unfinished releases its hold. */
  class BandwidthReservation {
    const manager: BandwidthManager
    const id: int
    var completed: bool

    constructor (manager: BandwidthManager, id: int)
      ensures this.manager == manager && this.id == id && !completed
    {
      this.manager, this.id, completed := manager, id, false;
    }

    /** Charging is idempotent: only the first call charges, and at most once. */
    method Finish(today: int, file: Option<Stats>)
      requires manager.Valid()
      modifies this, manager
      ensures manager.Valid() && completed
      ensures old(completed) ==> manager.ledger == old(manager.ledger) && manager.stats == old(manager.stats) && manager.holds == old(manager.holds)
      ensures !old(completed) ==>
                manager.ledger == old(manager.ledger) + (if id in old(manager.holds) then [Charge(id, old(manager.holds)[id].direction, old(manager.holds)[id].bytes)] else [])
    {
      if completed { return; }
      completed := true;
      var charged := manager.Commit(id, today, file);
    }

    /** An unfinished transfer gives its hold up; `FatesAreFinal` says that it is then never charged. */
    method Drop()
      requires manager.Valid()
      modifies manager`holds
      ensures manager.Valid() && manager.holds == if completed then old(manager.holds) else old(manager.holds) - {id}
      ensures !completed ==> id !in manager.holds
    {
      if !completed { manager.Release(id); }
    }
  }

  // ------------------------------------------------------------------ whole runs

  type Amount = n: nat | n <= U64_MAX

  /** One call, on a day and with what the accounting file holds then. */
  datatype Call =
    | Reserve(direction: Direction, bytes: Amount, day: int, file: Option<Stats>)
    | Resize(id: int, bytes: Amount, day: int, file: Option<Stats>)
    | Commit(id: int, day: int, file: Option<Stats>)
    | Drop(id: int)
    | SetLimit(bytes: Amount, day: int, file: Option<Stats>)

  /** What a call did to a reservation: nothing, if it was refused or concerned none. */
  datatype Effect = Nothing | Admitted(id: int, hold: Hold) | Resized(id: int, bytes: nat) | Committed(id: int) | Dropped(id: int)

  /** An effect a call may have. */
  predicate Answers(call: Call, effect: Effect) {
    match effect
    case Nothing => true
    case Admitted(_, hold) => call.Reserve? && hold == Hold(call.bytes, call.direction)
    case Resized(id, bytes) => call.Resize? && call.id == id && call.bytes == bytes
    case Committed(id) => call.Commit? && call.id == id
    case Dropped(id) => call.Drop? && call.id == id
  }

  /** What has become of a reservation; `last` is its last size and its direction. */
  datatype Fate = Unknown | OnHold(last: Hold) | Paid(last: Hold) | Released

  function Next(fate: Fate, effect: Effect, id: int): Fate {
    match effect
    case Nothing => fate
    case Admitted(other, hold) => if other == id && fate.Unknown? then OnHold(hold) else fate
    case Resized(other, bytes) => if other == id && fate.OnHold? then OnHold(fate.last.(bytes := bytes)) else fate
    case Committed(other) => if other == id && fate.OnHold? then Paid(fate.last) else fate
    case Dropped(other) => if other == id && fate.OnHold? then Released else fate
  }

  function FateOf(effects: seq<Effect>, id: int): Fate {
    if effects == [] then Unknown else Next(FateOf(effects[..|effects| - 1], id), effects[|effects| - 1], id)
  }

  lemma FateSnoc(effects: seq<Effect>, effect: Effect, id: int)
    ensures FateOf(effects + [effect], id) == Next(FateOf(effects, id), effect, id)
  {
    assert (effects + [effect])[..|effects|] == effects;
  }

  /** Whatever happens later, a dropped reservation stays dropped and a paid one stays paid at the same size. */
  lemma {:induction false} FatesAreFinal(effects: seq<Effect>, later: seq<Effect>, id: int)
    requires FateOf(effects, id).Released? || FateOf(effects, id).Paid?
    ensures FateOf(effects + later, id) == FateOf(effects, id)
  {
    if later == [] {
      assert effects + later == effects;
    } else {
      var init, last := later[..|later| - 1], later[|later| - 1];
      FatesAreFinal(effects, init, id);
      FateSnoc(effects + init, last, id);
      assert effects + later == (effects + init) + [last];
    }
  }

  predicate ChargedAs(ledger: seq<Charge>, id: int, hold: Hold) {
    exists i :: 0 <= i < |ledger| && ledger[i] == Charge(id, hold.direction, hold.bytes)
  }

  /** The accounts say of one reservation what has become of it. */
  predicate Accounted(effects: seq<Effect>, holds: Holds, nextId: nat, ledger: seq<Charge>, id: int) {
    match FateOf(effects, id)
    case Unknown => !(0 < id <= nextId) && id !in holds && !InLedger(ledger, id)
    case OnHold(last) => 0 < id <= nextId && id in holds && holds[id] == last && !InLedger(ledger, id)
    case Paid(last) => 0 < id <= nextId && id !in holds && ChargedAs(ledger, id, last)
    case Released => 0 < id <= nextId && id !in holds && !InLedger(ledger, id)
  }

  ghost predicate AllAccounted(effects: seq<Effect>, holds: Holds, nextId: nat, ledger: seq<Charge>) {
    forall id :: Accounted(effects, holds, nextId, ledger, id)
  }

  /** The accounts after an effect. */
  function HoldsAfter(holds: Holds, effect: Effect): Holds {
    match effect
    case Nothing => holds
    case Admitted(id, hold) => holds[id := hold]
    case Resized(id, bytes) => if id in holds then holds[id := holds[id].(bytes := bytes)] else holds
    case Committed(id) => holds - {id}
    case Dropped(id) => holds - {id}
  }

  function LedgerAfter(holds: Holds, ledger: seq<Charge>, effect: Effect): seq<Charge> {
    if effect.Committed? && effect.id in holds then ledger + [Charge(effect.id, holds[effect.id].direction, holds[effect.id].bytes)] else ledger
  }

  lemma ChargedAsSnoc(ledger: seq<Charge>, charge: Charge, id: int, hold: Hold)
    ensures ChargedAs(ledger, id, hold) ==> ChargedAs(ledger + [charge], id, hold)
    ensures charge == Charge(id, hold.direction, hold.bytes) ==> ChargedAs(ledger + [charge], id, hold)
  {
    var longer := ledger + [charge];
    assert longer[|ledger|] == charge;
    if ChargedAs(ledger, id, hold) {
      var i :| 0 <= i < |ledger| && ledger[i] == Charge(id, hold.direction, hold.bytes);
      assert longer[i] == ledger[i];
    }
  }

  lemma AccountedStep(effects: seq<Effect>, holds: Holds, nextId: nat, ledger: seq<Charge>, effect: Effect, id: int)
    requires Accounted(effects, holds, nextId, ledger, id)
    requires effect.Admitted? ==> effect.id == nextId + 1
    requires effect.Resized? || effect.Committed? || effect.Dropped? ==> effect.id in holds
    ensures Accounted(effects + [effect], HoldsAfter(holds, effect), if effect.Admitted? then nextId + 1 else nextId, LedgerAfter(holds, ledger, effect), id)
  {
    FateSnoc(effects, effect, id);
    if effect.Committed? {
      var charge := Charge(effect.id, holds[effect.id].direction, holds[effect.id].bytes);
      InLedgerSnoc(ledger, charge, id);
      if FateOf(effects, id).Paid? || FateOf(effects, id).OnHold? { ChargedAsSnoc(ledger, charge, id, FateOf(effects, id).last); }
    }
  }

  lemma AllAccountedStep(effects: seq<Effect>, holds: Holds, nextId: nat, ledger: seq<Charge>, effect: Effect)
    requires AllAccounted(effects, holds, nextId, ledger)
    requires effect.Admitted? ==> effect.id == nextId + 1
    requires effect.Resized? || effect.Committed? || effect.Dropped? ==> effect.id in holds
    ensures AllAccounted(effects + [effect], HoldsAfter(holds, effect), if effect.Admitted? then nextId + 1 else nextId, LedgerAfter(holds, ledger, effect))
  {
    var longer, after, next, charged := effects + [effect], HoldsAfter(holds, effect), if effect.Admitted? then nextId + 1 else nextId, LedgerAfter(holds, ledger, effect);
    forall id ensures Accounted(longer, after, next, charged, id) {
      AccountedStep(effects, holds, nextId, ledger, effect, id);
    }
  }

  /** One call, and the effect it had. */
  method Perform(manager: BandwidthManager, call: Call) returns (ghost effect: Effect)
    requires manager.Valid()
    modifies manager
    ensures manager.Valid() && Answers(call, effect)
    ensures effect.Admitted? ==> effect.id == old(manager.nextId) + 1 && manager.Used() <= manager.limit
    ensures effect.Resized? || effect.Committed? || effect.Dropped? ==> effect.id in old(manager.holds)
    ensures manager.holds == HoldsAfter(old(manager.holds), effect) && manager.ledger == LedgerAfter(old(manager.holds), old(manager.ledger), effect)
    ensures manager.nextId == if effect.Admitted? then old(manager.nextId) + 1 else old(manager.nextId)
    // only an admission or a growing resize may raise what is used, and then within the limit
    ensures !old(manager.loadError) && manager.Used() > old(manager.Used()) ==> (effect.Admitted? || effect.Resized?) && manager.Used() <= manager.limit
  {
    hide BandwidthManager.Valid, Sound, Explained, Held, Charged, Rolled;
    effect := Nothing;
    match call {
      case Reserve(direction, bytes, day, file) =>
        var id := manager.Reserve(direction, bytes, day, file);
        if id.Some? { effect := Admitted(id.value, Hold(bytes, direction)); }
      case Resize(id, bytes, day, file) =>
        var ok := manager.Resize(id, bytes, day, file);
        if ok { effect := Resized(id, bytes); }
      case Commit(id, day, file) =>
        if id in manager.holds { effect := Committed(id); }
        var ok := manager.Commit(id, day, file);
      case Drop(id) =>
        if id in manager.holds { effect := Dropped(id); }
        assert id !in manager.holds ==> manager.holds - {id} == manager.holds;
        manager.Release(id);
      case SetLimit(bytes, day, file) =>
        var ok := manager.SetLimit(bytes, day, file);
    }
  }

  /**
    From opening the accounting on: after any calls in any order, every reservation is accounted for by what became of it. One
    that was finished is charged once, in its own direction and at its last size; one that was dropped is not charged,
    then or ever after; and usage and holds never overflow.
  */
  method RunCalls(file: Option<Stats>, missing: bool, today: int, script: seq<Call>) returns (manager: BandwidthManager, ghost effects: seq<Effect>)
    ensures fresh(manager) && manager.Valid() && manager.Used() <= U64_MAX
    ensures |effects| == |script| && forall i :: 0 <= i < |script| ==> Answers(script[i], effects[i])
    ensures AllAccounted(effects, manager.holds, manager.nextId, manager.ledger) && ChargedOnce(manager.ledger)
  {
    manager := new BandwidthManager(file, missing, today);
    effects := [];
    for i := 0 to |script|
      invariant fresh(manager) && manager.Valid() && |effects| == i
      invariant forall k :: 0 <= k < i ==> Answers(script[k], effects[k])
      invariant AllAccounted(effects, manager.holds, manager.nextId, manager.ledger)
    {
      ghost var holds, nextId, ledger := manager.holds, manager.nextId, manager.ledger;
      ghost var effect := Perform(manager, script[i]);
      AllAccountedStep(effects, holds, nextId, ledger, effect);
      effects := effects + [effect];
    }
  }
}

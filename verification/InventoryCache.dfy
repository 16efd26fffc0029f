/**
  The inventory cache's memory bound and the shared audit budget (app/src-tauri/src/file_inventory.rs).
*/
module InventoryCache {
  import opened Common

  const MAX_RETAINED_ROWS := 100_000
  const MAX_AUDIT_BATCHES := 1_000
  const MAX_FILES := 50_000
  const AUDIT_BATCHES_PER_MINUTE := 25

  // ------------------------------------------------------------------ what the cache retains

  datatype Entry = Entry(rows: nat, touched: nat, pins: nat)

  type Entries = map<int, Entry>

  function DivCeil(rows: nat): nat { (rows + 99) / 100 }

  function Weight(entry: Entry, batches: bool): nat {
    if batches then DivCeil(entry.rows) else entry.rows
  }

  /** Sum over all entries of their rows, or of their audit batches. */
  function Total(entries: Entries, batches: bool): nat
    decreases |entries|
  {
    if entries.Keys == {} then 0
    else
      HasLeast(entries.Keys);
      var key :| IsLeast(entries.Keys, key);
      assert |entries - {key}| < |entries| by { assert (entries - {key}).Keys == entries.Keys - {key}; }
      Weight(entries[key], batches) + Total(entries - {key}, batches)
  }

  predicate WithinBounds(entries: Entries) {
    Total(entries, false) <= MAX_RETAINED_ROWS && Total(entries, true) <= MAX_AUDIT_BATCHES
  }

  /** The sum does not depend on the order the entries are taken in. */
  lemma {:induction false} TotalWithout(entries: Entries, key: int, batches: bool)
    requires key in entries
    ensures Total(entries, batches) == Weight(entries[key], batches) + Total(entries - {key}, batches)
    decreases |entries|
  {
    HasLeast(entries.Keys);
    var least :| IsLeast(entries.Keys, least);
    assert Total(entries, batches) == Weight(entries[least], batches) + Total(entries - {least}, batches);
    if least != key {
      var others := entries - {least};
      assert others.Keys == entries.Keys - {least};
      TotalWithout(others, key, batches);
      var rest := entries - {key};
      assert rest.Keys == entries.Keys - {key};
      assert IsLeast(rest.Keys, least);
      assert Total(rest, batches) == Weight(rest[least], batches) + Total(rest - {least}, batches);
      assert rest - {least} == others - {key};
    }
  }

  lemma WithoutIsWithin(entries: Entries, key: int)
    requires WithinBounds(entries)
    ensures WithinBounds(entries - {key})
  {
    if key in entries {
      TotalWithout(entries, key, false);
      TotalWithout(entries, key, true);
    } else {
      assert entries - {key} == entries;
    }
  }

  /** Entries that may be evicted while `current` completes. */
  function Evictable(entries: Entries, current: int): set<int> {
    set key | key in entries && key != current && entries[key].pins == 0
  }

  /** The least recently touched evictable entry. */
  predicate IsOldest(entries: Entries, current: int, key: int) {
    key in Evictable(entries, current) && forall other :: other in Evictable(entries, current) ==> entries[key].touched <= entries[other].touched
  }

  lemma {:induction false} HasOldest(entries: Entries, current: int, among: set<int>) returns (oldest: int)
    requires among != {} && among <= Evictable(entries, current)
    ensures oldest in among && forall other :: other in among ==> entries[oldest].touched <= entries[other].touched
    decreases |among|
  {
    HasLeast(among);
    var some :| IsLeast(among, some);
    if among == {some} {
      oldest := some;
    } else {
      var rest := among - {some};
      assert rest != {} by { assert rest == {} ==> among == {some}; }
      var best := HasOldest(entries, current, rest);
      oldest := if entries[some].touched <= entries[best].touched then some else best;
      assert forall other :: other in among ==> other == some || other in rest;
    }
  }

  function SetOf(keys: seq<int>): set<int> { set key | key in keys }

  /** Entries were evicted in least-recently-touched order, and each only because the bounds did not hold yet. */
  predicate EvictedInOrder(entries: Entries, current: int, evicted: seq<int>) {
    forall i :: 0 <= i < |evicted| ==>
      var left := entries - SetOf(evicted[..i]);
      !WithinBounds(left) && IsOldest(left, current, evicted[i])
  }

  lemma EvictNext(entries: Entries, current: int, evicted: seq<int>, key: int)
    requires EvictedInOrder(entries, current, evicted)
    requires !WithinBounds(entries - SetOf(evicted)) && IsOldest(entries - SetOf(evicted), current, key)
    ensures EvictedInOrder(entries, current, evicted + [key])
    ensures entries - SetOf(evicted + [key]) == entries - SetOf(evicted) - {key}
  {
    var longer := evicted + [key];
    assert SetOf(longer) == SetOf(evicted) + {key};
    forall i | 0 <= i < |longer|
      ensures var left := entries - SetOf(longer[..i]);
              !WithinBounds(left) && IsOldest(left, current, longer[i])
    {
      if i < |evicted| {
        assert longer[..i] == evicted[..i];
      } else {
        assert longer[..i] == evicted;
      }
    }
  }

  lemma PinnedStay(entries: Entries, current: int, evicted: seq<int>, key: int)
    requires EvictedInOrder(entries, current, evicted) && key in evicted
    ensures key in entries && key != current && entries[key].pins == 0
  {
    var i :| 0 <= i < |evicted| && evicted[i] == key;
    assert IsOldest(entries - SetOf(evicted[..i]), current, key);
  }

  lemma {:induction false} WithinAfterMore(entries: Entries, evicted: seq<int>, current: int)
    requires WithinBounds(entries - {current})
    ensures WithinBounds(entries - SetOf(evicted) - {current})
  {
    if evicted == [] {
      assert entries - SetOf(evicted) == entries;
    } else {
      var n := |evicted| - 1;
      WithinAfterMore(entries, evicted[..n], current);
      WithoutIsWithin(entries - SetOf(evicted[..n]) - {current}, evicted[n]);
      assert SetOf(evicted) == SetOf(evicted[..n]) + {evicted[n]} by { assert evicted == evicted[..n] + [evicted[n]]; }
      assert entries - SetOf(evicted) - {current} == entries - SetOf(evicted[..n]) - {current} - {evicted[n]};
    }
  }

  /** Everything that must survive an eviction does, unchanged. */
  predicate PinsKept(before: Entries, after: Entries, current: int) {
    forall key :: key in before && key != current && before[key].pins > 0 ==> key in after && after[key] == before[key]
  }

  lemma AllPinnedStay(before: Entries, current: int, evicted: seq<int>, gone: set<int>)
    requires EvictedInOrder(before, current, evicted) && gone <= {current}
    ensures PinsKept(before, before - SetOf(evicted) - gone, current)
  {
    forall key | key in before && key != current && before[key].pins > 0 ensures key !in evicted {
      if key in evicted { PinnedStay(before, current, evicted, key); }
    }
  }

  class Cache {
    var entries: Entries

    /** Evict one entry, or find that none may be evicted. */
    method EvictOldest(current: int) returns (key: Option<int>)
      modifies this
      ensures key.None? ==> entries == old(entries) && Evictable(entries, current) == {}
      ensures key.Some? ==> IsOldest(old(entries), current, key.value) && entries == old(entries) - {key.value} && |entries| < |old(entries)|
    {
      var candidates := Evictable(entries, current);
      if candidates == {} { return None; }
      ghost var oldest := HasOldest(entries, current, candidates);
      var victim :| victim in candidates && IsOldest(entries, current, victim);
      assert (entries - {victim}).Keys == entries.Keys - {victim};
      entries := entries - {victim};
      key := Some(victim);
    }

    /**
      `trim`: evict the least recently touched entries until the bounds hold; when only pinned ones are left,
      drop the current listing instead. Pinned entries are never evicted.
    */
    method Trim(current: int) returns (cached: bool, ghost evicted: seq<int>)
      requires WithinBounds(entries - {current})
      modifies this
      ensures EvictedInOrder(old(entries), current, evicted)
      ensures entries == old(entries) - SetOf(evicted) - (if cached then {} else {current})
      ensures WithinBounds(entries)
      ensures !cached ==> Evictable(old(entries) - SetOf(evicted), current) == {} && !WithinBounds(old(entries) - SetOf(evicted))
      ensures PinsKept(old(entries), entries, current)
    {
      cached, evicted := EvictUntilWithin(current);
      AllPinnedStay(old(entries), current, evicted, if cached then {} else {current});
      if !cached {
        WithinAfterMore(old(entries), evicted, current);
        entries := entries - {current};
      }
    }

    /** Evict until the bounds hold, or until nothing more may be evicted. */
    method EvictUntilWithin(current: int) returns (enough: bool, ghost evicted: seq<int>)
      modifies this
      ensures EvictedInOrder(old(entries), current, evicted) && entries == old(entries) - SetOf(evicted)
      ensures enough <==> WithinBounds(entries)
      ensures !enough ==> Evictable(entries, current) == {}
    {
      evicted := [];
      ghost var before := entries;
      assert before - SetOf([]) == before;
      while !WithinBounds(entries)
        invariant entries == before - SetOf(evicted) && EvictedInOrder(before, current, evicted)
        decreases |entries|
      {
        var key := EvictOldest(current);
        if key.None? { return false, evicted; }
        EvictNext(before, current, evicted, key.value);
        evicted := evicted + [key.value];
      }
      enough := true;
    }

    /**
      A listing completes: its row count is stored, then the cache is trimmed. If the cache was within its
      bounds before, it is again, whatever the listing's size.
    */
    method Complete(current: int, rows: nat) returns (cached: bool, ghost evicted: seq<int>)
      requires WithinBounds(entries)
      modifies this
      ensures WithinBounds(entries)
      ensures PinsKept(old(entries), entries, current)
      ensures cached && current in old(entries) ==> current in entries && entries[current].rows == rows
      ensures !cached ==> current !in entries
    {
      WithoutIsWithin(entries, current);
      ghost var before := entries;
      if current in entries {
        entries := entries[current := entries[current].(rows := rows)];
      }
      assert entries - {current} == before - {current};
      ghost var stored := entries;
      cached, evicted := Trim(current);
      if current in evicted { PinnedStay(stored, current, evicted, current); }
    }
  }

  // ------------------------------------------------------------------ the audit budget

  predicate NonDecreasing(times: seq<nat>) {
    forall i, j :: 0 <= i <= j < |times| ==> times[i] <= times[j]
  }

  /** `saturating_duration_since`. */
  function Age(now: nat, at: nat): nat { if now >= at then now - at else 0 }

  /** Any 26 consecutive reservations span at least the window. */
  predicate Spaced(history: seq<nat>, window: nat) {
    forall i :: 0 <= i < |history| - AUDIT_BATCHES_PER_MINUTE ==> history[i + AUDIT_BATCHES_PER_MINUTE] - history[i] >= window
  }

  /** `used` is the end of the history; whatever came before it has left the window. */
  predicate Tracks(history: seq<nat>, used: seq<nat>, clock: nat, window: nat) {
    && |used| <= AUDIT_BATCHES_PER_MINUTE && |used| <= |history| && used == history[|history| - |used|..]
    && NonDecreasing(history) && (history != [] ==> history[|history| - 1] <= clock)
    && (forall i :: 0 <= i < |history| - |used| ==> clock - history[i] >= window)
    && Spaced(history, window)
  }

  lemma TracksLater(history: seq<nat>, used: seq<nat>, clock: nat, later: nat, window: nat)
    requires Tracks(history, used, clock, window) && clock <= later
    ensures Tracks(history, used, later, window)
  {
  }

  lemma TracksPop(history: seq<nat>, used: seq<nat>, clock: nat, window: nat)
    requires Tracks(history, used, clock, window) && used != [] && Age(clock, used[0]) >= window
    ensures Tracks(history, used[1..], clock, window)
  {
    assert used[0] == history[|history| - |used|];
    assert history[|history| - |used|] <= history[|history| - 1];
  }

  lemma TracksPush(history: seq<nat>, used: seq<nat>, clock: nat, window: nat)
    requires Tracks(history, used, clock, window) && |used| < AUDIT_BATCHES_PER_MINUTE
    ensures Tracks(history + [clock], used + [clock], clock, window)
  {
    var longer := history + [clock];
    forall i, j | 0 <= i <= j < |longer| ensures longer[i] <= longer[j] {
      if i < |history| && j == |history| { assert history[i] <= history[|history| - 1]; }
    }
    assert longer[|longer| - |used| - 1..] == used + [clock];
  }

  class AuditBudget {
    const window: nat
    var clock: nat
    var used: seq<nat>
    /** Every reservation ever granted. */
    ghost var history: seq<nat>

    ghost predicate Valid()
      reads this
    {
      Tracks(history, used, clock, window)
    }

    constructor (window: nat)
      ensures Valid() && history == []
    {
      this.window, clock, used, history := window, 0, [], [];
    }

    /** The clock never runs backwards. */
    method Now() returns (now: nat)
      requires Valid()
      modifies this`clock
      ensures Valid() && now == clock >= old(clock)
    {
      var pause :| pause >= 0;
      TracksLater(history, used, clock, clock + pause, window);
      clock := clock + pause;
      now := clock;
    }

    /** Forget reservations that have left the window; the oldest one kept was still inside it just now. */
    method Expire() returns (now: nat)
      requires Valid()
      modifies this`clock, this`used
      ensures Valid() && old(clock) <= clock && now <= clock && |used| <= old(|used|)
      ensures used != [] ==> Age(now, used[0]) < window
    {
      now := clock;
      while used != []
        invariant Valid() && old(clock) <= clock && now <= clock && |used| <= old(|used|)
        decreases |used|
      {
        now := Now();
        if Age(now, used[0]) < window { return; }
        Forget();
      }
    }

    /** Drop the oldest reservation, which has left the window. */
    method Forget()
      requires Valid() && used != [] && Age(clock, used[0]) >= window
      modifies this`used
      ensures Valid() && used == old(used)[1..]
    {
      TracksPop(history, used, clock, window);
      used := used[1..];
    }

    method Available() returns (count: nat)
      requires Valid()
      modifies this`clock, this`used
      ensures Valid() && clock >= old(clock) && count == AUDIT_BATCHES_PER_MINUTE - |used|
    {
      var now := Expire();
      count := AUDIT_BATCHES_PER_MINUTE - |used|;
    }

    /** Granted unless the last 25 reservations were all made within the window; `at` is the moment that was decided. */
    method Reserve() returns (granted: bool, at: nat)
      requires Valid()
      modifies this
      ensures Valid() && at <= clock && clock >= old(clock)
      ensures granted ==> at == clock && history == old(history) + [at]
      ensures !granted ==> history == old(history) && |history| >= AUDIT_BATCHES_PER_MINUTE
      ensures !granted ==> Age(at, history[|history| - AUDIT_BATCHES_PER_MINUTE]) < window
    {
      at := Expire();
      if |used| == AUDIT_BATCHES_PER_MINUTE {
        assert used[0] == history[|history| - AUDIT_BATCHES_PER_MINUTE];
        return false, at;
      }
      at := Now();
      Push();
      granted := true;
    }

    /** Record a reservation made now. */
    method Push()
      requires Valid() && |used| < AUDIT_BATCHES_PER_MINUTE
      modifies this`used, this`history
      ensures Valid() && history == old(history) + [clock]
    {
      TracksPush(history, used, clock, window);
      used := used + [clock];
      history := history + [clock];
    }
  }
}

/**
  Desktop notifications: a queue with a wake-up flag, and a bounded window of receipts that suppresses
  duplicates (app/src-tauri/src/desktop_notifications.rs).
*/
module Notifications {
  import opened Common

  const MAX_RECEIPTS := 2_000

  // ------------------------------------------------------------------ the queue and its flag

  /** An enqueuer has passed its checks, or has pushed and is about to swap the flag. */
  datatype Enqueuer = Arrived(receipt: int) | Pushed

  /** A flush sleeps, has drained under the queue lock, has also cleared the flag, or delivers with the lock released. */
  datatype Flush = Scheduled | Drained(batch: seq<int>) | Cleared(batch: seq<int>) | Delivering(batch: seq<int>)

  /** `pushed` and `taken` record every receipt that entered and left the queue, in order. */
  datatype State = State(pending: seq<int>, flag: bool, lock: Option<int>, enqueuers: map<int, Enqueuer>, flushes: map<int, Flush>,
                         pushed: seq<int>, taken: seq<int>)

  datatype Step =
    | Arrive(e: int, receipt: int)
    | Push(e: int)
    | Swap(e: int, f: int)
    | Drain(f: int)
    | Clear(f: int)
    | Unlock(f: int)
    | Finish(f: int)

  /** The queue lock is held for a push, and from a drain until the flag is cleared. */
  predicate Enabled(s: State, step: Step) {
    match step
    case Arrive(e, _) => e !in s.enqueuers
    case Push(e) => e in s.enqueuers && s.enqueuers[e].Arrived? && s.lock.None?
    case Swap(e, f) => e in s.enqueuers && s.enqueuers[e].Pushed? && f !in s.flushes
    case Drain(f) => f in s.flushes && s.flushes[f].Scheduled? && s.lock.None?
    case Clear(f) => f in s.flushes && s.flushes[f].Drained?
    case Unlock(f) => f in s.flushes && s.flushes[f].Cleared?
    case Finish(f) => f in s.flushes && s.flushes[f].Delivering?
  }

  function Apply(s: State, step: Step): State
    requires Enabled(s, step)
  {
    match step
    case Arrive(e, receipt) => s.(enqueuers := s.enqueuers[e := Arrived(receipt)])
    case Push(e) =>
      var receipt := s.enqueuers[e].receipt;
      if receipt in s.pending then s.(enqueuers := s.enqueuers - {e})
      else s.(pending := s.pending + [receipt], enqueuers := s.enqueuers[e := Pushed], pushed := s.pushed + [receipt])
    case Swap(e, f) =>
      var left := s.enqueuers - {e};
      if s.flag then s.(enqueuers := left) else s.(flag := true, enqueuers := left, flushes := s.flushes[f := Scheduled])
    case Drain(f) => s.(pending := [], lock := Some(f), flushes := s.flushes[f := Drained(s.pending)], taken := s.taken + s.pending)
    case Clear(f) => s.(flag := false, flushes := s.flushes[f := Cleared(s.flushes[f].batch)])
    case Unlock(f) => s.(lock := None, flushes := s.flushes[f := Delivering(s.flushes[f].batch)])
    case Finish(f) => s.(flushes := s.flushes - {f})
  }

  /** A flush that owns the flag: it has not yet drained, or has not yet cleared the flag after draining. */
  predicate OwnsFlag(s: State, f: int) {
    f in s.flushes && (s.flushes[f].Scheduled? || s.flushes[f].Drained?)
  }

  predicate HoldsQueue(s: State, f: int) {
    f in s.flushes && (s.flushes[f].Drained? || s.flushes[f].Cleared?)
  }

  /** Whoever makes sure that what is queued will be flushed. */
  predicate WakesUp(s: State) {
    || (exists f :: f in s.flushes && s.flushes[f].Scheduled?)
    || (exists e :: e in s.enqueuers && s.enqueuers[e].Pushed?)
  }

  ghost predicate Inv(s: State) {
    && (s.flag <==> exists f :: OwnsFlag(s, f))
    && (forall f, g :: OwnsFlag(s, f) && OwnsFlag(s, g) ==> f == g)
    && (forall f :: HoldsQueue(s, f) <==> s.lock == Some(f))
    && (s.lock.Some? ==> s.pending == [])
    && (s.pending != [] ==> WakesUp(s))
    && s.pushed == s.taken + s.pending
    && (forall i, j :: 0 <= i < j < |s.pending| ==> s.pending[i] != s.pending[j])
  }

  lemma EnqueueStepsKeep(s: State, step: Step)
    requires Inv(s) && Enabled(s, step) && (step.Arrive? || step.Push?)
    ensures Inv(Apply(s, step))
  {
    var next := Apply(s, step);
    forall f ensures (OwnsFlag(next, f) <==> OwnsFlag(s, f)) && (HoldsQueue(next, f) <==> HoldsQueue(s, f)) { }
    if step.Push? && s.enqueuers[step.e].receipt in s.pending {
      if e :| e in s.enqueuers && s.enqueuers[e].Pushed? {
        assert e in next.enqueuers && next.enqueuers[e].Pushed?;
      }
    } else if step.Push? {
      assert next.enqueuers[step.e].Pushed?;
    } else if e :| e in s.enqueuers && s.enqueuers[e].Pushed? {
      assert e in next.enqueuers && next.enqueuers[e].Pushed?;
    }
  }

  lemma SwapKeeps(s: State, step: Step)
    requires Inv(s) && Enabled(s, step) && step.Swap?
    ensures Inv(Apply(s, step))
  {
    var next := Apply(s, step);
    if s.flag {
      var f :| OwnsFlag(s, f);
      assert OwnsFlag(next, f);
      forall g ensures (OwnsFlag(next, g) <==> OwnsFlag(s, g)) && (HoldsQueue(next, g) <==> HoldsQueue(s, g)) { }
      if s.pending != [] {
        assert !HoldsQueue(s, f);
        assert next.flushes[f].Scheduled?;
      }
    } else {
      assert OwnsFlag(next, step.f) && next.flushes[step.f].Scheduled?;
      forall g ensures (OwnsFlag(next, g) <==> g == step.f) && (HoldsQueue(next, g) <==> HoldsQueue(s, g)) { assert !OwnsFlag(s, g); }
    }
  }

  lemma FlushStepsKeep(s: State, step: Step)
    requires Inv(s) && Enabled(s, step) && (step.Drain? || step.Clear? || step.Unlock? || step.Finish?)
    ensures Inv(Apply(s, step))
  {
    var next, f := Apply(s, step), step.f;
    forall g | g != f ensures (OwnsFlag(next, g) <==> OwnsFlag(s, g)) && (HoldsQueue(next, g) <==> HoldsQueue(s, g)) { }
    match step {
      case Drain(_) => assert OwnsFlag(s, f) && OwnsFlag(next, f) && HoldsQueue(next, f);
      case Clear(_) => assert OwnsFlag(s, f) && HoldsQueue(s, f) && HoldsQueue(next, f) && !OwnsFlag(next, f);
      case Unlock(_) =>
        assert HoldsQueue(s, f) && !HoldsQueue(next, f);
        assert forall g :: OwnsFlag(next, g) <==> OwnsFlag(s, g);
      case Finish(_) =>
        assert forall g :: OwnsFlag(next, g) <==> OwnsFlag(s, g);
        if e :| e in s.enqueuers && s.enqueuers[e].Pushed? { assert next.enqueuers[e].Pushed?; }
        if g :| g in s.flushes && s.flushes[g].Scheduled? { assert g in next.flushes && next.flushes[g].Scheduled?; }
    }
  }

  lemma StepKeepsInv(s: State, step: Step)
    requires Inv(s) && Enabled(s, step)
    ensures Inv(Apply(s, step))
  {
    match step {
      case Arrive(_, _) => EnqueueStepsKeep(s, step);
      case Push(_) => EnqueueStepsKeep(s, step);
      case Swap(_, _) => SwapKeeps(s, step);
      case _ => FlushStepsKeep(s, step);
    }
  }

  // ------------------------------------------------------------------ whole runs

  function Quiet(): State { State([], false, None, map[], map[], [], []) }

  predicate IsRun(run: seq<State>, steps: seq<Step>) {
    && |run| == |steps| + 1 && run[0] == Quiet()
    && forall i {:trigger steps[i]} :: 0 <= i < |steps| ==> Enabled(run[i], steps[i]) && run[i + 1] == Apply(run[i], steps[i])
  }

  lemma {:induction false} RunKeepsInv(run: seq<State>, steps: seq<Step>, i: nat)
    requires IsRun(run, steps) && i < |run|
    ensures Inv(run[i])
  {
    if i > 0 {
      RunKeepsInv(run, steps, i - 1);
      assert run[i] == Apply(run[i - 1], steps[i - 1]);
      StepKeepsInv(run[i - 1], steps[i - 1]);
    }
  }

  /**
    Wake-ups are never lost: whenever something is queued, a flush that has not drained yet is scheduled or an
    enqueuer is about to schedule one; there is never more than one such flush; and everything ever pushed has
    been taken by a flush, in order, or is still queued.
  */
  lemma WakeupsAreNeverLost(run: seq<State>, steps: seq<Step>, i: nat)
    requires IsRun(run, steps) && i < |run|
    ensures run[i].pending != [] ==> WakesUp(run[i])
    ensures forall f, g :: f in run[i].flushes && g in run[i].flushes && run[i].flushes[f].Scheduled? && run[i].flushes[g].Scheduled? ==> f == g
    ensures run[i].pushed == run[i].taken + run[i].pending
  {
    RunKeepsInv(run, steps, i);
    forall f, g | f in run[i].flushes && g in run[i].flushes && run[i].flushes[f].Scheduled? && run[i].flushes[g].Scheduled? ensures f == g {
      assert OwnsFlag(run[i], f) && OwnsFlag(run[i], g);
    }
  }

  /** When nobody is enqueuing and no flush is scheduled, nothing is queued. */
  lemma NothingLeftBehind(run: seq<State>, steps: seq<Step>, i: nat)
    requires IsRun(run, steps) && i < |run|
    requires run[i].enqueuers == map[] && forall f :: f in run[i].flushes ==> !run[i].flushes[f].Scheduled?
    ensures run[i].pending == [] && run[i].taken == run[i].pushed
  {
    RunKeepsInv(run, steps, i);
    assert !WakesUp(run[i]);
  }

  // ------------------------------------------------------------------ the coordinator

  predicate IsStepOf(step: Step, id: int, flushing: bool) {
    match step
    case Arrive(e, _) => !flushing && e == id
    case Push(e) => !flushing && e == id
    case Swap(e, f) => if flushing then f == id else e == id
    case Drain(f) => flushing && f == id
    case Clear(f) => flushing && f == id
    case Unlock(f) => flushing && f == id
    case Finish(f) => flushing && f == id
  }

  /** The enqueuer or flush `id` stands where it stood. */
  predicate Untouched(before: State, after: State, id: int, flushing: bool) {
    if flushing then
      (id in after.flushes <==> id in before.flushes) && (id in before.flushes ==> after.flushes[id] == before.flushes[id])
    else
      (id in after.enqueuers <==> id in before.enqueuers) && (id in before.enqueuers ==> after.enqueuers[id] == before.enqueuers[id])
  }

  lemma OthersLeave(before: State, s: State, step: Step, id: int, flushing: bool)
    requires Enabled(s, step) && !IsStepOf(step, id, flushing) && Untouched(before, s, id, flushing)
    ensures Untouched(before, Apply(s, step), id, flushing)
  {
  }

  lemma NothingTouched(s: State, id: int, flushing: bool)
    ensures Untouched(s, s, id, flushing)
  {
  }

  class Coordinator {
    var s: State

    constructor ()
      ensures Inv(s) && s == Quiet()
    {
      s := Quiet();
    }

    method Do(step: Step)
      requires Inv(s) && Enabled(s, step)
      modifies this
      ensures Inv(s) && s == Apply(old(s), step)
    {
      StepKeepsInv(s, step);
      s := Apply(s, step);
    }

    /** Any steps of other enqueuers and flushes. */
    method Others(id: int, flushing: bool)
      requires Inv(s)
      modifies this
      ensures Inv(s) && Untouched(old(s), s, id, flushing)
    {
      hide *;
      NothingTouched(s, id, flushing);
      var steps :| 0 <= steps;
      for i := 0 to steps
        invariant Inv(s) && Untouched(old(s), s, id, flushing)
      {
        var step: Step := *;
        if Enabled(s, step) && !IsStepOf(step, id, flushing) {
          OthersLeave(old(s), s, step, id, flushing);
          Do(step);
        }
      }
    }

    /**
      `enqueue`, once preferences and the receipt index let the candidate through. `busy` says that another thread
      held the queue lock whenever this one tried. Unless the candidate was queued already, a flush has been
      scheduled or was still scheduled when this enqueuer swapped the flag.
    */
    method Enqueue(e: int, receipt: int) returns (busy: bool, queued: bool)
      requires Inv(s) && e !in s.enqueuers
      modifies this
      ensures Inv(s)
      ensures !busy ==> e !in s.enqueuers
      ensures queued ==> !busy && s.flag
    {
      Do(Arrive(e, receipt));
      Others(e, false);
      busy, queued := s.lock.Some?, false;
      if busy { return; }
      Do(Push(e));
      if e !in s.enqueuers { return; }
      Others(e, false);
      var id := Unused();
      Do(Swap(e, id));
      assert s.flag;
      queued := true;
    }

    method Unused() returns (f: int)
      ensures f !in s.flushes
    {
      f := 0;
      var ids := SortedIds(s.flushes.Keys);
      SortedIdsAreSorted(s.flushes.Keys);
      if ids != [] { f := ids[|ids| - 1] + 1; }
    }

    /** `flush`: drain, clear the flag while the queue is still locked, then deliver. It returns exactly what was queued when it drained. */
    method Flush(f: int) returns (busy: bool, batch: seq<int>)
      requires Inv(s) && f in s.flushes && s.flushes[f].Scheduled?
      modifies this
      ensures Inv(s)
      ensures !busy ==> f !in s.flushes
      ensures !busy ==> forall i, j :: 0 <= i < j < |batch| ==> batch[i] != batch[j]
    {
      Others(f, true);
      busy, batch := s.lock.Some?, [];
      if busy { return; }
      batch := s.pending;
      Do(Drain(f));
      Others(f, true);
      Do(Clear(f));
      Others(f, true);
      Do(Unlock(f));
      Others(f, true);
      Do(Finish(f));
    }
  }

  // ------------------------------------------------------------------ receipts

  predicate Distinct(receipts: seq<int>) {
    forall i, j :: 0 <= i < j < |receipts| ==> receipts[i] != receipts[j]
  }

  function SetOf(receipts: seq<int>): set<int> { set r | r in receipts }

  /** The last receipts of a list, up to the limit. */
  function Newest(receipts: seq<int>): seq<int> {
    if |receipts| <= MAX_RECEIPTS then receipts else receipts[|receipts| - MAX_RECEIPTS..]
  }

  /** The loop that pops receipts beyond the limit. */
  function PopExtra(receipts: seq<int>, index: set<int>): (seq<int>, set<int>)
    decreases |receipts|
  {
    if |receipts| <= MAX_RECEIPTS then (receipts, index) else PopExtra(receipts[1..], index - {receipts[0]})
  }

  /** One claim: the retained receipts and the index after it, and whether it succeeded. */
  function Claim(receipts: seq<int>, index: set<int>, receipt: int): (seq<int>, set<int>, bool) {
    if receipt in index then (receipts, index, false)
    else
      var popped := PopExtra(receipts + [receipt], index + {receipt});
      (popped.0, popped.1, true)
  }

  /** Among 2,001 consecutive claims no receipt occurs twice: it is claimed again only after 2,000 others. */
  predicate WindowsDistinct(log: seq<int>) {
    forall i, j :: 0 <= i < j < |log| && j - i <= MAX_RECEIPTS ==> log[i] != log[j]
  }

  /** The index holds exactly the retained receipts, which are distinct and the newest of all ever claimed. */
  predicate Sound(receipts: seq<int>, index: set<int>, log: seq<int>) {
    Distinct(receipts) && index == SetOf(receipts) && receipts == Newest(log) && WindowsDistinct(log)
  }

  lemma WindowsOfDistinct(stored: seq<int>)
    requires Distinct(stored)
    ensures Distinct(Newest(stored)) && Newest(Newest(stored)) == Newest(stored) && WindowsDistinct(Newest(stored))
  {
  }

  lemma PopOne(receipts: seq<int>, index: set<int>)
    requires |receipts| <= MAX_RECEIPTS + 1
    ensures PopExtra(receipts, index) == if |receipts| <= MAX_RECEIPTS then (receipts, index) else (receipts[1..], index - {receipts[0]})
  {
  }

  lemma NewestSnoc(log: seq<int>, r: int)
    ensures Newest(log + [r]) == if |log| < MAX_RECEIPTS then log + [r] else (Newest(log) + [r])[1..]
    ensures |log| < MAX_RECEIPTS ==> Newest(log) == log
  {
  }

  lemma ClaimKeepsWindows(log: seq<int>, receipt: int)
    requires WindowsDistinct(log) && receipt !in Newest(log)
    ensures WindowsDistinct(log + [receipt])
  {
    var longer := log + [receipt];
    forall i, j | 0 <= i < j < |longer| && j - i <= MAX_RECEIPTS ensures longer[i] != longer[j] {
      if j == |log| {
        var start := |log| - |Newest(log)|;
        assert Newest(log) == log[start..];
        assert Newest(log)[i - start] == log[i];
      }
    }
  }

  /** From a sound state a claim succeeds exactly when the receipt is not among the newest 2,000, and leaves a sound state. */
  lemma ClaimKeepsSound(receipts: seq<int>, index: set<int>, log: seq<int>, receipt: int)
    requires Sound(receipts, index, log)
    ensures var (receipts', index', claimed) := Claim(receipts, index, receipt);
            && (claimed <==> receipt !in Newest(log))
            && Sound(receipts', index', if claimed then log + [receipt] else log)
  {
    if receipt !in index {
      var longer := receipts + [receipt];
      PopOne(longer, index + {receipt});
      NewestSnoc(log, receipt);
      ClaimKeepsWindows(log, receipt);
      assert Distinct(longer) && index + {receipt} == SetOf(longer);
      if |longer| > MAX_RECEIPTS {
        TailOfDistinct(longer);
      }
    }
  }

  lemma TailOfDistinct(receipts: seq<int>)
    requires receipts != [] && Distinct(receipts)
    ensures Distinct(receipts[1..]) && SetOf(receipts[1..]) == SetOf(receipts) - {receipts[0]}
  {
    assert receipts == [receipts[0]] + receipts[1..];
  }

  class Receipts {
    var receipts: seq<int>
    var index: set<int>
    /** What the receipts file holds. */
    var disk: seq<int>
    /** The loaded receipts followed by every receipt claimed since. */
    ghost var log: seq<int>

    ghost predicate Valid()
      reads this
    {
      Sound(receipts, index, log)
    }

    /** `load_receipts`: the last receipts of the stored list. */
    constructor (stored: seq<int>)
      ensures receipts == Newest(stored) && index == SetOf(receipts) && log == receipts && disk == stored
      ensures Distinct(stored) ==> Valid()
    {
      receipts, index, disk, log := Newest(stored), SetOf(Newest(stored)), stored, Newest(stored);
      new;
      if Distinct(stored) { WindowsOfDistinct(stored); }
    }

    /**
      `claim_receipt`: from a sound state it is claimed exactly when the receipt is not among the newest 2,000 ever
      claimed. The file then holds the retained receipts, or still what it held.
    */
    method ClaimReceipt(receipt: int) returns (claimed: bool)
      modifies this
      ensures (receipts, index, claimed) == Claim(old(receipts), old(index), receipt)
      ensures log == if claimed then old(log) + [receipt] else old(log)
      ensures old(Valid()) ==> Valid() && (claimed <==> receipt !in Newest(old(log)))
      ensures disk == old(disk) || (claimed && disk == receipts)
      ensures old(Valid()) && Distinct(old(disk)) ==> Distinct(disk)
    {
      if old(Valid()) { ClaimKeepsSound(receipts, index, log, receipt); }
      if receipt in index { return false; }
      index := index + {receipt};
      log := log + [receipt];
      receipts := receipts + [receipt];
      while |receipts| > MAX_RECEIPTS
        invariant PopExtra(receipts, index) == PopExtra(old(receipts) + [receipt], old(index) + {receipt})
        invariant disk == old(disk) && log == old(log) + [receipt]
        decreases |receipts|
      {
        index := index - {receipts[0]};
        receipts := receipts[1..];
      }
      var persisted: bool := *;
      if persisted { disk := receipts; }
      claimed := true;
    }
  }

  // ------------------------------------------------------------------ a loaded list with duplicates

  /** The state after the first `n` of `later` have been claimed. */
  function AfterClaims(loaded: seq<int>, later: seq<int>, n: nat): (seq<int>, set<int>)
    requires n <= |later|
  {
    if n == 0 then (loaded, SetOf(loaded))
    else
      var before := AfterClaims(loaded, later, n - 1);
      var after := Claim(before.0, before.1, later[n - 1]);
      (after.0, after.1)
  }

  /** Receipts that have not been loaded and are all different. */
  predicate NewReceipts(loaded: seq<int>, later: seq<int>) {
    Distinct(later) && forall r :: r in later ==> r !in loaded
  }

  /** What has been dropped from the front of a list. */
  function Dropped(all: seq<int>): seq<int> { all[..|all| - |Newest(all)|] }

  lemma NoClaims(loaded: seq<int>)
    requires |loaded| <= MAX_RECEIPTS
    ensures Newest(loaded) == loaded && SetOf(loaded) - SetOf(Dropped(loaded)) == SetOf(loaded)
  {
    assert Dropped(loaded) == [];
  }

  lemma {:induction false} AfterClaimsIs(loaded: seq<int>, later: seq<int>, n: nat)
    requires |loaded| <= MAX_RECEIPTS && NewReceipts(loaded, later) && n <= |later|
    ensures var all := loaded + later[..n];
            AfterClaims(loaded, later, n) == (Newest(all), SetOf(all) - SetOf(Dropped(all)))
  {
    if n == 0 {
      NoClaims(loaded);
      assert loaded + later[..0] == loaded;
    } else {
      AfterClaimsIs(loaded, later, n - 1);
      ClaimMoves(loaded + later[..n - 1], later[n - 1]);
      assert loaded + later[..n] == (loaded + later[..n - 1]) + [later[n - 1]];
    }
  }

  lemma ClaimMoves(all: seq<int>, r: int)
    requires r !in all
    ensures var longer := all + [r];
            Claim(Newest(all), SetOf(all) - SetOf(Dropped(all)), r) == (Newest(longer), SetOf(longer) - SetOf(Dropped(longer)), true)
  {
    var longer, index := all + [r], SetOf(all) - SetOf(Dropped(all));
    NewestSnoc(all, r);
    PopOne(Newest(all) + [r], index + {r});
    if |all| < MAX_RECEIPTS {
      assert Dropped(all) == [] && Dropped(longer) == [] && SetOf([]) == {};
      assert SetOf(longer) == SetOf(all) + {r};
      assert index + {r} == SetOf(longer) - SetOf([]);
    } else {
      var gone := Newest(all)[0];
      assert Dropped(longer) == Dropped(all) + [gone];
      assert SetOf(Dropped(longer)) == SetOf(Dropped(all)) + {gone};
      assert SetOf(longer) == SetOf(all) + {r};
      assert r !in SetOf(Dropped(all)) && r != gone && (Newest(all) + [r])[0] == gone;
      assert (index + {r}) - {gone} == SetOf(longer) - SetOf(Dropped(longer));
    }
  }

  /** Whether the index holds exactly the retained receipts after `n` later claims. */
  predicate IndexExact(loaded: seq<int>, later: seq<int>, n: nat)
    requires n <= |later|
  {
    AfterClaims(loaded, later, n).1 == SetOf(AfterClaims(loaded, later, n).0)
  }

  /** The index stays exact through enough further claims exactly when the loaded list had no duplicates. */
  lemma IndexExactIffLoadedDistinct(loaded: seq<int>, later: seq<int>)
    requires |loaded| <= MAX_RECEIPTS && NewReceipts(loaded, later) && |later| == MAX_RECEIPTS
    ensures (forall n: nat :: n <= |later| ==> IndexExact(loaded, later, n)) <==> Distinct(loaded)
  {
    if Distinct(loaded) {
      forall n: nat | n <= |later| ensures IndexExact(loaded, later, n) {
        DistinctStaysExact(loaded, later, n);
      }
    } else {
      var a, b :| 0 <= a < b < |loaded| && loaded[a] == loaded[b];
      DuplicateBreaksIndex(loaded, later, a, b);
      assert !IndexExact(loaded, later, MAX_RECEIPTS - |loaded| + a + 1);
    }
  }

  lemma DistinctStaysExact(loaded: seq<int>, later: seq<int>, n: nat)
    requires |loaded| <= MAX_RECEIPTS && NewReceipts(loaded, later) && n <= |later| && Distinct(loaded)
    ensures IndexExact(loaded, later, n)
  {
    AfterClaimsIs(loaded, later, n);
    var all := loaded + later[..n];
    assert all == Dropped(all) + Newest(all);
    forall i, j | 0 <= i < j < |all| ensures all[i] != all[j] {
      if i < |loaded| <= j { assert later[j - |loaded|] in later; }
    }
    forall r | r in Dropped(all) ensures r !in Newest(all) {
      var i :| 0 <= i < |Dropped(all)| && Dropped(all)[i] == r;
      forall j | 0 <= j < |Newest(all)| ensures Newest(all)[j] != r { assert all[i] != all[|Dropped(all)| + j]; }
    }
  }

  /** When the first copy is popped, the index forgets a receipt that is still retained: it can be claimed again. */
  lemma DuplicateBreaksIndex(loaded: seq<int>, later: seq<int>, a: nat, b: nat)
    requires |loaded| <= MAX_RECEIPTS && NewReceipts(loaded, later) && |later| == MAX_RECEIPTS
    requires a < b < |loaded| && loaded[a] == loaded[b]
    ensures var (receipts, index) := AfterClaims(loaded, later, MAX_RECEIPTS - |loaded| + a + 1);
            loaded[a] in receipts && loaded[a] !in index && Claim(receipts, index, loaded[a]).2
  {
    var n := MAX_RECEIPTS - |loaded| + a + 1;
    AfterClaimsIs(loaded, later, n);
    var all := loaded + later[..n];
    assert |Dropped(all)| == a + 1 && Dropped(all)[a] == loaded[a];
    assert Newest(all)[b - a - 1] == all[b] == loaded[b];
  }
}

/**
  The metadata epoch: a sequence lock with any number of concurrent writers (app/src-tauri/src/local_search.rs).

  `pending` and `revision` are separate atomics. A writer raises `pending`, then `revision`, changes the
  database, raises `revision` again, then lowers `pending`; a reader loads `pending`, then `revision`.
  Each load, each read-modify-write and each database change is one step, and steps interleave freely.
*/
module MetadataEpoch {
  import opened Common

  /** Where a mutation guard stands: between which two of its four atomic updates. */
  datatype Phase = Idle | Entered | Working | Leaving

  type Rows = map<int, int>

  /** `bumps` counts the increments of `revision`, which wraps. */
  datatype State = State(pending: nat, revision: nat, guards: map<int, Phase>, bumps: nat, rows: Rows)

  function PhaseOf(s: State, m: int): Phase {
    if m in s.guards then s.guards[m] else Idle
  }

  datatype Step = Raise(m: int) | BumpIn(m: int) | Change(m: int, key: int, value: Option<int>) | BumpOut(m: int) | Lower(m: int)

  predicate Enabled(s: State, step: Step) {
    match step
    case Raise(m) => PhaseOf(s, m) == Idle
    case BumpIn(m) => PhaseOf(s, m) == Entered
    case Change(m, _, _) => PhaseOf(s, m) == Working
    case BumpOut(m) => PhaseOf(s, m) == Working
    case Lower(m) => PhaseOf(s, m) == Leaving && s.pending > 0
  }

  function Apply(s: State, step: Step): State
    requires Enabled(s, step)
  {
    match step
    case Raise(m) => s.(pending := s.pending + 1, guards := s.guards[m := Entered])
    case BumpIn(m) => s.(revision := WrappingNext(s.revision), bumps := s.bumps + 1, guards := s.guards[m := Working])
    case Change(_, key, value) => s.(rows := if value.Some? then s.rows[key := value.value] else s.rows - {key})
    case BumpOut(m) => s.(revision := WrappingNext(s.revision), bumps := s.bumps + 1, guards := s.guards[m := Leaving])
    case Lower(m) => s.(pending := s.pending - 1, guards := s.guards - {m})
  }

  /** `pending` counts the guards alive. */
  predicate Counted(s: State) {
    && s.pending == |s.guards|
    && forall m :: m in s.guards ==> s.guards[m] != Idle
  }

  /** `revision` counts the bumps, up to wrap-around. */
  predicate Wrapped(s: State) { s.revision == s.bumps % U64_LIMIT }

  lemma StepCounts(s: State, step: Step)
    requires Counted(s) && Enabled(s, step)
    ensures Counted(Apply(s, step))
  {
    if step.Lower? {
      assert (s.guards - {step.m}).Keys == s.guards.Keys - {step.m};
    }
  }

  // ------------------------------------------------------------------ runs

  /** Consecutive states are equal (a load) or one guard's step apart. */
  ghost predicate Next(s: State, t: State) {
    t == s || exists step :: Enabled(s, step) && t == Apply(s, step)
  }

  ghost predicate Linked(run: seq<State>, i: nat)
    requires i + 1 < |run|
  {
    Next(run[i], run[i + 1])
  }

  ghost predicate IsRun(run: seq<State>) {
    && (run != [] ==> Wrapped(run[0]))
    && (forall i :: 0 <= i < |run| ==> Counted(run[i]))
    && forall i :: 0 <= i < |run| - 1 ==> Linked(run, i)
  }

  lemma StepAt(run: seq<State>, t: nat)
    requires IsRun(run) && t + 1 < |run|
    ensures Next(run[t], run[t + 1])
  {
    assert Linked(run, t);
  }

  lemma ExtendRun(run: seq<State>, s: State)
    requires IsRun(run) && run != [] && Next(run[|run| - 1], s) && Counted(s)
    ensures IsRun(run + [s])
  {
    var longer := run + [s];
    forall i | 0 <= i < |longer| - 1 ensures Linked(longer, i) {
      if i < |run| - 1 { StepAt(run, i); }
    }
  }

  lemma NextIsMonotone(s: State, t: State, m: int)
    requires Next(s, t)
    ensures s.bumps <= t.bumps
    ensures s.bumps == t.bumps ==>
              && (PhaseOf(s, m) == Working <==> PhaseOf(t, m) == Working)
              && (PhaseOf(s, m) == Entered ==> PhaseOf(t, m) == Entered)
    ensures s.bumps == t.bumps && (PhaseOf(s, m) == Idle || PhaseOf(s, m) == Entered) ==> PhaseOf(t, m) == Idle || PhaseOf(t, m) == Entered
  {
    if t != s {
      var step :| Enabled(s, step) && t == Apply(s, step);
    }
  }

  /** Rows change only inside a mutation. */
  lemma OnlyWorkersChange(s: State, t: State) returns (worker: int)
    requires Next(s, t) && s.rows != t.rows
    ensures PhaseOf(s, worker) == Working
  {
    var step :| Enabled(s, step) && t == Apply(s, step);
    worker := step.m;
  }

  lemma {:induction false} BumpsGrow(run: seq<State>, i: nat, j: nat)
    requires IsRun(run) && i <= j < |run|
    ensures run[i].bumps <= run[j].bumps
  {
    hide Next, Counted, Wrapped, IsRun;
    if i < j {
      BumpsGrow(run, i, j - 1);
      StepAt(run, j - 1);
      NextIsMonotone(run[j - 1], run[j], 0);
    }
  }

  /** While nobody bumps the revision, a guard inside its mutation stays inside, and one about to enter waits. */
  lemma {:induction false} QuietKeepsPhases(run: seq<State>, i: nat, j: nat, m: int)
    requires IsRun(run) && i <= j < |run| && run[i].bumps == run[j].bumps
    ensures PhaseOf(run[i], m) == Working <==> PhaseOf(run[j], m) == Working
    ensures PhaseOf(run[i], m) == Entered ==> PhaseOf(run[j], m) == Entered
  {
    hide Next, Counted, Wrapped, IsRun, PhaseOf;
    if i < j {
      BumpsGrow(run, i, j - 1);
      BumpsGrow(run, j - 1, j);
      QuietKeepsPhases(run, i, j - 1, m);
      StepAt(run, j - 1);
      NextIsMonotone(run[j - 1], run[j], m);
    }
  }

  lemma QuietBetween(run: seq<State>, i: nat, t: nat, j: nat)
    requires IsRun(run) && i <= t <= j < |run| && run[i].bumps == run[j].bumps
    ensures run[t].bumps == run[i].bumps
  {
    hide Next, Counted, Wrapped, IsRun;
    BumpsGrow(run, i, t);
    BumpsGrow(run, t, j);
  }

  lemma NobodyPending(s: State, m: int)
    requires Counted(s) && s.pending == 0
    ensures PhaseOf(s, m) == Idle
  {
    assert m in s.guards ==> |s.guards.Keys| > 0;
  }

  lemma NextWraps(s: State, t: State)
    requires Next(s, t) && Wrapped(s)
    ensures Wrapped(t)
  {
    CounterWraps(s.bumps);
  }

  lemma {:induction false} RunWraps(run: seq<State>, i: nat)
    requires IsRun(run) && i < |run|
    ensures Wrapped(run[i])
  {
    if i > 0 {
      RunWraps(run, i - 1);
      StepAt(run, i - 1);
      NextWraps(run[i - 1], run[i]);
    }
  }

  /** Equal revisions fewer than 2^64 bumps apart mean no bump at all. */
  lemma SameRevisionMeansQuiet(run: seq<State>, i: nat, j: nat)
    requires IsRun(run) && i <= j < |run| && run[j].bumps < run[i].bumps + U64_LIMIT
    ensures run[i].revision == run[j].revision <==> run[i].bumps == run[j].bumps
  {
    BumpsGrow(run, i, j);
    RunWraps(run, i);
    RunWraps(run, j);
    SameCounter(run[i].bumps, run[j].bumps);
  }

  /**
    One call loads the revision at `first`; a later call finds nothing pending at `check` and loads the same
    revision at `last`. Then at no moment between the two revision loads is any guard inside its mutation, and
    none is waiting to enter one before `check`: the first call's own look at `pending` is not even needed.
  */
  lemma NoMutationBetween(run: seq<State>, first: nat, check: nat, last: nat, t: nat, m: int)
    requires IsRun(run) && first <= check <= last < |run| && first <= t <= last
    requires run[check].pending == 0 && run[first].revision == run[last].revision
    requires run[last].bumps < run[first].bumps + U64_LIMIT
    ensures PhaseOf(run[t], m) != Working
    ensures t <= check ==> PhaseOf(run[t], m) == Idle || PhaseOf(run[t], m) == Leaving
    ensures check <= t ==> PhaseOf(run[t], m) == Idle || PhaseOf(run[t], m) == Entered
  {
    SameRevisionMeansQuiet(run, first, last);
    QuietBetween(run, first, t, last);
    QuietBetween(run, first, check, last);
    NobodyPending(run[check], m);
    if t <= check {
      QuietKeepsPhases(run, t, check, m);
    } else {
      QuietKeepsPhases(run, check, t, m);
      NeverLeaves(run, check, t, m);
    }
  }

  lemma {:induction false} NeverLeaves(run: seq<State>, i: nat, j: nat, m: int)
    requires IsRun(run) && i <= j < |run| && run[i].bumps == run[j].bumps && PhaseOf(run[i], m) == Idle
    ensures PhaseOf(run[j], m) == Idle || PhaseOf(run[j], m) == Entered
  {
    hide Next, Counted, Wrapped, IsRun, PhaseOf;
    if i < j {
      QuietBetween(run, i, j - 1, j);
      NeverLeaves(run, i, j - 1, m);
      StepAt(run, j - 1);
      NextIsMonotone(run[j - 1], run[j], m);
    }
  }

  lemma StepKeepsRows(run: seq<State>, first: nat, check: nat, last: nat, t: nat)
    requires IsRun(run) && first <= check <= last < |run| && first <= t < last
    requires run[check].pending == 0 && run[first].revision == run[last].revision
    requires run[last].bumps < run[first].bumps + U64_LIMIT
    ensures run[t + 1].rows == run[t].rows
  {
    StepAt(run, t);
    var s := run[t];
    if s.rows != run[t + 1].rows {
      var worker := OnlyWorkersChange(s, run[t + 1]);
      NoMutationBetween(run, first, check, last, t, worker);
      assert false;
    }
  }

  /** Nothing the index is built from changes between the two revision loads. */
  lemma {:induction false} RowsUnchanged(run: seq<State>, first: nat, check: nat, last: nat, t: nat)
    requires IsRun(run) && first <= check <= last < |run| && first <= t <= last
    requires run[check].pending == 0 && run[first].revision == run[last].revision
    requires run[last].bumps < run[first].bumps + U64_LIMIT
    ensures run[t].rows == run[first].rows
  {
    if first < t {
      RowsUnchanged(run, first, check, last, t - 1);
      StepKeepsRows(run, first, check, last, t - 1);
    }
  }

  /** The bound is needed, and exact: 2^64 bumps wrap the revision to where it was, and hide every mutation in between. */
  lemma WrapIsInvisible(run: seq<State>, i: nat, j: nat)
    requires IsRun(run) && i <= j < |run| && run[j].bumps == run[i].bumps + U64_LIMIT
    ensures run[i].revision == run[j].revision
  {
    RunWraps(run, i);
    RunWraps(run, j);
    assert (run[i].bumps + U64_LIMIT) % U64_LIMIT == run[i].bumps % U64_LIMIT;
  }

  // ------------------------------------------------------------------ the epoch object

  /** One store's epoch beside the rows it protects; `run` is the history of its states. */
  class Epoch {
    var pending: nat
    var revision: nat
    var rows: Rows
    var guards: map<int, Phase>
    var bumps: nat
    ghost var run: seq<State>

    function View(): State
      reads this
    {
      State(pending, revision, guards, bumps, rows)
    }

    ghost predicate Valid()
      reads this
    {
      IsRun(run) && run != [] && run[|run| - 1] == View()
    }

    constructor (rows: Rows)
      ensures Valid() && this.rows == rows && pending == 0 && guards == map[]
    {
      pending, revision, this.rows, guards, bumps := 0, 0, rows, map[], 0;
      run := [State(0, 0, map[], 0, rows)];
    }

    /** One atomic step of a guard. */
    method Take(step: Step)
      requires Valid() && Enabled(View(), step)
      modifies this
      ensures Valid() && run == old(run) + [View()] && View() == Apply(old(View()), step)
    {
      StepCounts(View(), step);
      hide IsRun, Counted;
      match step {
        case Raise(m) => pending, guards := pending + 1, guards[m := Entered];
        case BumpIn(m) => revision, bumps, guards := WrappingNext(revision), bumps + 1, guards[m := Working];
        case Change(_, key, value) => rows := if value.Some? then rows[key := value.value] else rows - {key};
        case BumpOut(m) => revision, bumps, guards := WrappingNext(revision), bumps + 1, guards[m := Leaving];
        case Lower(m) => pending, guards := pending - 1, guards - {m};
      }
      assert Next(old(View()), View());
      Note();
    }

    /** Append the present state to the history. */
    ghost method Note()
      requires IsRun(run) && run != [] && Next(run[|run| - 1], View()) && Counted(View())
      modifies this`run
      ensures Valid() && run == old(run) + [View()]
    {
      ExtendRun(run, View());
      run := run + [View()];
    }

    /** Whatever the other threads do meanwhile: any steps of any guards but `mine`. */
    method Others(mine: Option<int>)
      requires Valid()
      modifies this
      ensures Valid() && old(run) <= run
      ensures mine.Some? ==> PhaseOf(View(), mine.value) == PhaseOf(old(View()), mine.value)
    {
      var steps :| 0 <= steps;
      for i := 0 to steps
        invariant Valid() && old(run) <= run
        invariant mine.Some? ==> PhaseOf(View(), mine.value) == PhaseOf(old(View()), mine.value)
      {
        var step: Step := *;
        if Enabled(View(), step) && (mine.None? || step.m != mine.value) {
          Take(step);
        }
      }
    }

    /** `MetadataMutation::begin`: once it returns, every reader that started earlier will see a new revision. */
    method Begin(m: int)
      requires Valid() && PhaseOf(View(), m) == Idle
      modifies this
      ensures Valid() && old(run) <= run && PhaseOf(View(), m) == Working && pending > 0
    {
      Take(Raise(m));
      Others(Some(m));
      Take(BumpIn(m));
      assert Counted(View());
      assert m in guards.Keys && |guards.Keys| == |guards|;
    }

    /** Dropping the guard. */
    method Drop(m: int)
      requires Valid() && PhaseOf(View(), m) == Working
      modifies this
      ensures Valid() && old(run) <= run && PhaseOf(View(), m) == Idle
    {
      Take(BumpOut(m));
      Others(Some(m));
      assert Counted(View());
      assert m in guards.Keys && |guards.Keys| == |guards|;
      Take(Lower(m));
    }

    /** `metadata_revision`: the moments of its two loads are returned for the proof. */
    method MetadataRevision() returns (r: Option<nat>, ghost check: nat, ghost load: nat)
      requires Valid()
      modifies this
      ensures Valid() && old(run) <= run
      ensures |old(run)| - 1 <= check <= load < |run|
      ensures r.Some? ==> run[check].pending == 0 && r.value == run[load].revision
      ensures r.None? ==> run[check].pending > 0
    {
      Others(None);
      check := |run| - 1;
      load := check;
      if pending > 0 { return None, check, load; }
      Others(None);
      load := |run| - 1;
      r := Some(revision);
      Others(None);
    }

    /**
      Read rows one at a time between two revision checks, as the search index is built. If the revision did
      not move, every row read is the row of one and the same moment, however the writers interleaved.
    */
    method Snapshot(keys: seq<int>) returns (read: Option<seq<Option<int>>>, ghost first: nat, ghost last: nat)
      requires Valid()
      modifies this
      ensures Valid() && old(run) <= run && |old(run)| - 1 <= first <= last < |run|
      ensures read.Some? && run[last].bumps < run[first].bumps + U64_LIMIT ==>
                |read.value| == |keys| && forall i, t :: 0 <= i < |keys| && first <= t <= last ==> read.value[i] == Lookup(run[t].rows, keys[i])
    {
      hide IsRun;
      ghost var check, moments: seq<nat> := 0, [];
      var before, after;
      before, check, first := MetadataRevision();
      last := first;
      if before.None? { return None, first, last; }
      var out: seq<Option<int>> := [];
      for i := 0 to |keys|
        invariant Valid() && old(run) <= run && first < |run| && |out| == |moments| == i
        invariant before.value == run[first].revision
        invariant forall k :: 0 <= k < i ==> first <= moments[k] < |run| && out[k] == Lookup(run[moments[k]].rows, keys[k])
      {
        ghost var had := run;
        Others(None);
        assert forall k :: 0 <= k < |had| ==> run[k] == had[k];
        moments := moments + [|run| - 1];
        out := out + [Lookup(rows, keys[i])];
      }
      ghost var had := run;
      after, check, last := MetadataRevision();
      assert forall k :: 0 <= k < |had| ==> run[k] == had[k];
      if before != after { return None, first, last; }
      read := Some(out);
      if run[last].bumps < run[first].bumps + U64_LIMIT {
        forall i, t | 0 <= i < |keys| && first <= t <= last ensures out[i] == Lookup(run[t].rows, keys[i]) {
          RowsUnchanged(run, first, check, last, moments[i]);
          RowsUnchanged(run, first, check, last, t);
        }
      }
    }
  }

  function Lookup(rows: Rows, key: int): Option<int> {
    if key in rows then Some(rows[key]) else None
  }
}

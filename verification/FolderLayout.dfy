/**
  Per-account folder layouts swapped through one pair of shared tables (app/src-tauri/src/folder_layout.rs).

  A marker names the account whose layout the tables hold. Every file rename, store write and SQL
  transaction is one step; an operation can be interrupted, by an error or a crash, before any of its steps.
  Operations run one at a time: they hold the database connection's mutex.
*/
module FolderLayout {
  import opened Common

  type Account = x: int | x > 0 witness 1

  /** The marker while the tables belong to nobody. */
  const NO_OWNER := 0

  datatype Group = Group(name: string, color: Option<string>, order: int)
  datatype Folder = Folder(name: string, username: Option<string>, isPublic: bool, order: int, group: Option<int>)

  /** The two shared tables, keyed by their primary keys. */
  datatype Tables = Tables(groups: map<int, Group>, folders: map<int, Folder>)

  /** A layout as an account's store keeps it: the rows of both tables in key order. */
  datatype SavedLayout = SavedLayout(groups: seq<(int, Group)>, folders: seq<(int, Folder)>)

  const EMPTY_TABLES := Tables(map[], map[])
  const EMPTY_LAYOUT := SavedLayout([], [])

  // ------------------------------------------------------------------ rows

  /** `SELECT … ORDER BY` the primary key. */
  function SelectRows<T>(table: map<int, T>): seq<(int, T)>
    decreases |table|
  {
    if table.Keys == {} then []
    else
      HasLeast(table.Keys);
      var id :| IsLeast(table.Keys, id);
      assert |table - {id}| == |table| - 1 by { assert (table - {id}).Keys == table.Keys - {id}; }
      [(id, table[id])] + SelectRows(table - {id})
  }

  /** Insert rows one by one; a primary key already present fails the statement. */
  function InsertRows<T>(table: map<int, T>, rows: seq<(int, T)>): Option<map<int, T>>
    decreases |rows|
  {
    if rows == [] then Some(table)
    else if rows[0].0 in table then None
    else InsertRows(table[rows[0].0 := rows[0].1], rows[1..])
  }

  lemma MoveRow<T>(base: map<int, T>, table: map<int, T>, id: int)
    requires base.Keys !! table.Keys && id in table
    ensures base[id := table[id]] + (table - {id}) == base + table
    ensures base[id := table[id]].Keys !! (table - {id}).Keys
    ensures |table - {id}| < |table|
  {
    assert (table - {id}).Keys == table.Keys - {id};
  }

  lemma SelectFirst<T>(table: map<int, T>) returns (id: int)
    requires table.Keys != {}
    ensures id in table && SelectRows(table) == [(id, table[id])] + SelectRows(table - {id})
  {
    id := SelectRows(table)[0].0;
  }

  /** Inserting a selected table's rows beside other rows restores exactly that table. */
  lemma {:induction false} InsertSelected<T>(base: map<int, T>, table: map<int, T>)
    requires base.Keys !! table.Keys
    ensures InsertRows(base, SelectRows(table)) == Some(base + table)
    decreases |table|
  {
    if table.Keys == {} {
      assert base + table == base;
    } else {
      var id := SelectFirst(table);
      MoveRow(base, table, id);
      InsertSelected(base[id := table[id]], table - {id});
      assert SelectRows(table)[1..] == SelectRows(table - {id});
    }
  }

  function ReadTables(tables: Tables): SavedLayout {
    SavedLayout(SelectRows(tables.groups), SelectRows(tables.folders))
  }

  /** One transaction: both tables are replaced, or a failing insert rolls everything back. */
  function WriteTables(tables: Tables, layout: SavedLayout): (Tables, bool) {
    var groups, folders := InsertRows(map[], layout.groups), InsertRows(map[], layout.folders);
    if groups.Some? && folders.Some? then (Tables(groups.value, folders.value), true) else (tables, false)
  }

  /** No two rows share a primary key. */
  predicate KeysDistinct<T>(rows: seq<(int, T)>) {
    forall i, j :: 0 <= i < j < |rows| ==> rows[i].0 != rows[j].0
  }

  predicate HasKey<T>(rows: seq<(int, T)>, id: int) {
    exists i :: 0 <= i < |rows| && rows[i].0 == id
  }

  /** The table holds exactly these rows. */
  ghost predicate HoldsRows<T>(table: map<int, T>, rows: seq<(int, T)>) {
    && (forall id :: id in table <==> HasKey(rows, id))
    && forall i :: 0 <= i < |rows| ==> rows[i].0 in table && table[rows[i].0] == rows[i].1
  }

  /** No row's key is taken in the table or by an earlier row. */
  predicate KeysFree<T>(table: map<int, T>, rows: seq<(int, T)>) {
    KeysDistinct(rows) && forall i :: 0 <= i < |rows| ==> rows[i].0 !in table
  }

  lemma KeysFreeUncons<T>(table: map<int, T>, rows: seq<(int, T)>)
    requires rows != []
    ensures KeysFree(table, rows) <==> rows[0].0 !in table && KeysFree(table[rows[0].0 := rows[0].1], rows[1..])
  {
    var rest, more := rows[1..], table[rows[0].0 := rows[0].1];
    assert forall i :: 0 <= i < |rest| ==> rest[i] == rows[i + 1];
    if rows[0].0 !in table && KeysFree(more, rest) {
      forall i, j | 0 <= i < j < |rows| ensures rows[i].0 != rows[j].0 {
        assert rest[j - 1] == rows[j];
        if i > 0 { assert rest[i - 1] == rows[i]; }
      }
      forall i | 0 <= i < |rows| ensures rows[i].0 !in table {
        if i > 0 { assert rest[i - 1] == rows[i]; }
      }
    }
  }

  /** Rows are inserted exactly when all their keys are free. */
  lemma {:induction false} InsertedIffFree<T>(table: map<int, T>, rows: seq<(int, T)>)
    ensures InsertRows(table, rows).Some? <==> KeysFree(table, rows)
    decreases |rows|
  {
    if rows != [] {
      KeysFreeUncons(table, rows);
      InsertedIffFree(table[rows[0].0 := rows[0].1], rows[1..]);
    }
  }

  /** Afterwards a key holds its row, and every other key what it held. */
  lemma {:induction false} InsertedRow<T>(table: map<int, T>, rows: seq<(int, T)>, id: int)
    requires InsertRows(table, rows).Some?
    ensures var after := InsertRows(table, rows).value;
            && (id in after <==> id in table || HasKey(rows, id))
            && (id in table ==> id in after && after[id] == table[id])
            && forall i :: 0 <= i < |rows| && rows[i].0 == id ==> id in after && after[id] == rows[i].1
    decreases |rows|
  {
    if rows != [] {
      var rest := rows[1..];
      InsertedRow(table[rows[0].0 := rows[0].1], rest, id);
      assert HasKey(rows, id) <==> rows[0].0 == id || HasKey(rest, id) by {
        if HasKey(rest, id) {
          var i :| 0 <= i < |rest| && rest[i].0 == id;
          assert rows[i + 1].0 == id;
        }
        if HasKey(rows, id) && rows[0].0 != id {
          var i :| 0 <= i < |rows| && rows[i].0 == id;
          assert rest[i - 1].0 == id;
        }
      }
      forall i | 0 <= i < |rows| && rows[i].0 == id ensures id in InsertRows(table, rows).value && InsertRows(table, rows).value[id] == rows[i].1 {
        if i > 0 { assert rest[i - 1] == rows[i]; }
      }
    }
  }

  /**
    Replacing the tables fails, and then changes nothing, exactly when a primary key is repeated; otherwise the tables
    hold exactly the layout's rows, whatever they held before.
  */
  lemma WriteTablesReplaces(current: Tables, layout: SavedLayout)
    ensures var (after, ok) := WriteTables(current, layout);
            && (ok <==> KeysDistinct(layout.groups) && KeysDistinct(layout.folders))
            && (!ok ==> after == current)
            && (ok ==> HoldsRows(after.groups, layout.groups) && HoldsRows(after.folders, layout.folders))
  {
    InsertedIffFree(map[], layout.groups);
    InsertedIffFree(map[], layout.folders);
    InsertedRows(layout.groups);
    InsertedRows(layout.folders);
  }

  lemma InsertedRows<T>(rows: seq<(int, T)>)
    ensures InsertRows(map[], rows).Some? ==> HoldsRows(InsertRows(map[], rows).value, rows)
  {
    if InsertRows(map[], rows).Some? {
      forall id ensures id in InsertRows(map[], rows).value <==> HasKey(rows, id) { InsertedRow(map[], rows, id); }
      forall i | 0 <= i < |rows| ensures rows[i].0 in InsertRows(map[], rows).value && InsertRows(map[], rows).value[rows[i].0] == rows[i].1 {
        InsertedRow(map[], rows, rows[i].0);
      }
    }
  }

  /** What is read from the tables is exactly what writing it back restores. */
  lemma SavedLayoutRestores(saved: Tables, current: Tables)
    ensures WriteTables(current, ReadTables(saved)) == (saved, true)
  {
    InsertSelected(map[], saved.groups);
    InsertSelected(map[], saved.folders);
    assert map[] + saved.groups == saved.groups && map[] + saved.folders == saved.folders;
  }

  // ------------------------------------------------------------------ steps

  datatype Disk = Disk(marker: Option<nat>, tables: Tables, stores: map<Account, SavedLayout>)

  /** The layout an account's store holds; an account never switched out has an empty one. */
  function Stored(d: Disk, a: Account): SavedLayout {
    if a in d.stores then d.stores[a] else EMPTY_LAYOUT
  }

  datatype Step = Save(account: Account) | Mark(owner: nat) | Load(account: Account) | Clear

  function Apply(d: Disk, step: Step): Disk {
    match step
    case Save(account) => d.(stores := d.stores[account := ReadTables(d.tables)])
    case Mark(owner) => d.(marker := Some(owner))
    case Load(account) => d.(tables := WriteTables(d.tables, Stored(d, account)).0)
    case Clear => d.(tables := WriteTables(d.tables, EMPTY_LAYOUT).0)
  }

  /** The first `count` of `steps`. */
  function After(d: Disk, steps: seq<Step>, count: nat): Disk
    requires count <= |steps|
  {
    if count == 0 then d else Apply(After(d, steps, count - 1), steps[count - 1])
  }

  lemma AfterOne(d: Disk, steps: seq<Step>, count: nat)
    requires count < |steps|
    ensures After(d, steps, 0) == d
    ensures After(d, steps, count + 1) == Apply(After(d, steps, count), steps[count])
  {
  }

  /** What `activate` does, in order, when the marker reads `marker`. */
  function ActivateSteps(marker: Option<nat>, owner: Account): seq<Step> {
    match marker
    case None => [Mark(owner)]
    case Some(previous) =>
      if previous == owner then []
      else if previous != NO_OWNER then [Save(previous), Mark(NO_OWNER), Load(owner), Mark(owner)]
      else [Mark(NO_OWNER), Load(owner), Mark(owner)]
  }

  /** What `deactivate` does, in order. */
  function DeactivateSteps(marker: Option<nat>, signingOut: Option<Account>): seq<Step> {
    match marker
    case None => if signingOut.Some? then [Save(signingOut.value), Mark(NO_OWNER), Clear] else []
    case Some(owner) => if owner != NO_OWNER then [Save(owner), Mark(NO_OWNER), Clear] else [Mark(NO_OWNER), Clear]
  }

  predicate ReadableBy(d: Disk, owner: Option<Account>) {
    d.marker.None? || (owner.Some? && d.marker.value == owner.value)
  }

  // ------------------------------------------------------------------ nothing is lost or misattributed

  /** Each account's layout as it last left it. */
  type Latest = map<Account, Tables>

  function LatestOf(latest: Latest, a: Account): Tables {
    if a in latest then latest[a] else EMPTY_TABLES
  }

  /** A saved layout that restores exactly `tables`. */
  predicate Restores(saved: SavedLayout, tables: Tables) {
    WriteTables(EMPTY_TABLES, saved) == (tables, true)
  }

  /** Every account's latest layout is in the tables when the marker names it, and in its own store otherwise. */
  predicate AtHome(d: Disk, latest: Latest, a: Account) {
    if d.marker == Some(a) then d.tables == LatestOf(latest, a) else Restores(Stored(d, a), LatestOf(latest, a))
  }

  ghost predicate Kept(d: Disk, latest: Latest) {
    d.marker.Some? && forall a: Account :: AtHome(d, latest, a)
  }

  lemma RestoringReplaces(current: Tables, saved: SavedLayout, tables: Tables)
    requires Restores(saved, tables)
    ensures WriteTables(current, saved) == (tables, true)
  {
  }

  /** The steps that occur keep every layout at home under these conditions. */
  lemma StepKeeps(d: Disk, latest: Latest, step: Step)
    requires Kept(d, latest)
    requires match step
             case Save(account) => d.marker == Some(account)
             case Mark(owner) => owner == d.marker.value || (owner == NO_OWNER && (forall a: Account :: d.marker == Some(a) ==> Restores(Stored(d, a), d.tables)))
                                 || (d.marker == Some(NO_OWNER) && owner != NO_OWNER && d.tables == LatestOf(latest, owner))
             case Load(_) => d.marker == Some(NO_OWNER)
             case Clear => d.marker == Some(NO_OWNER)
    ensures Kept(Apply(d, step), latest)
    ensures step.Save? ==> Restores(Stored(Apply(d, step), step.account), d.tables) && Apply(d, step).tables == d.tables
    ensures step.Load? ==> Apply(d, step).tables == LatestOf(latest, step.account)
    ensures step.Clear? ==> Apply(d, step).tables == EMPTY_TABLES
  {
    SavedLayoutRestores(d.tables, EMPTY_TABLES);
    var next := Apply(d, step);
    if step.Load? {
      assert AtHome(d, latest, step.account);
      RestoringReplaces(d.tables, Stored(d, step.account), LatestOf(latest, step.account));
    }
    forall a: Account ensures AtHome(next, latest, a) {
      assert AtHome(d, latest, a);
    }
  }

  /** However far a sign-in gets, every layout stays at home; once complete, the tables hold the account's latest layout. */
  lemma ActivateKeeps(d: Disk, latest: Latest, owner: Account, cut: nat)
    requires Kept(d, latest) && cut <= |ActivateSteps(d.marker, owner)|
    ensures var after := After(d, ActivateSteps(d.marker, owner), cut);
            && Kept(after, latest)
            && (cut == |ActivateSteps(d.marker, owner)| ==> after.marker == Some(owner) && after.tables == LatestOf(latest, owner))
  {
    var steps := ActivateSteps(d.marker, owner);
    assert AtHome(d, latest, owner);
    if d.marker.value != owner {
      var saving := if d.marker.value != NO_OWNER then 1 else 0;
      AfterOne(d, steps, 0);
      if saving == 1 && cut >= 1 { StepKeeps(d, latest, steps[0]); }
      if cut >= saving + 1 { StepKeeps(After(d, steps, saving), latest, steps[saving]); }
      if cut >= saving + 2 { StepKeeps(After(d, steps, saving + 1), latest, steps[saving + 1]); }
      if cut >= saving + 3 { StepKeeps(After(d, steps, saving + 2), latest, steps[saving + 2]); }
    }
  }

  /** However far a sign-out gets, every layout stays at home; once complete, the tables are empty and nobody's. */
  lemma DeactivateKeeps(d: Disk, latest: Latest, signingOut: Option<Account>, cut: nat)
    requires Kept(d, latest) && cut <= |DeactivateSteps(d.marker, signingOut)|
    ensures var after := After(d, DeactivateSteps(d.marker, signingOut), cut);
            && Kept(after, latest)
            && (cut == |DeactivateSteps(d.marker, signingOut)| ==> after.marker == Some(NO_OWNER) && after.tables == EMPTY_TABLES)
  {
    var steps := DeactivateSteps(d.marker, signingOut);
    var saving := if d.marker.value != NO_OWNER then 1 else 0;
    AfterOne(d, steps, 0);
    if saving == 1 && cut >= 1 { StepKeeps(d, latest, steps[0]); }
    if cut >= saving + 1 { StepKeeps(After(d, steps, saving), latest, steps[saving]); }
    if cut >= saving + 2 { StepKeeps(After(d, steps, saving + 1), latest, steps[saving + 1]); }
  }

  lemma OwnEditKeeps(d: Disk, latest: Latest, editor: Account, edited: Tables)
    requires Kept(d, latest) && d.marker == Some(editor)
    ensures Kept(d.(tables := edited), latest[editor := edited])
  {
    var next, known := d.(tables := edited), latest[editor := edited];
    forall a: Account ensures AtHome(next, known, a) { assert AtHome(d, latest, a); }
  }

  /** An edit that changes its account's layout is kept for that account exactly when the marker names it. */
  lemma EditKeptIffOwner(d: Disk, latest: Latest, editor: Account, edited: Tables)
    requires Kept(d, latest) && edited != LatestOf(latest, editor)
    ensures Kept(d.(tables := edited), latest[editor := edited]) <==> d.marker == Some(editor)
  {
    if d.marker == Some(editor) {
      OwnEditKeeps(d, latest, editor, edited);
    } else {
      assert AtHome(d, latest, editor);
      assert !AtHome(d.(tables := edited), latest[editor := edited], editor);
    }
  }

  /** While a marker exists, a session is shown tables exactly when they are its account's, and then its latest layout. */
  lemma ShownOnlyToOwner(d: Disk, latest: Latest, reader: Option<Account>)
    requires Kept(d, latest)
    ensures ReadableBy(d, reader) <==> reader.Some? && d.marker == Some(reader.value)
    ensures ReadableBy(d, reader) ==> d.tables == LatestOf(latest, reader.value)
  {
    if ReadableBy(d, reader) { assert AtHome(d, latest, reader.value); }
  }

  // ------------------------------------------------------------------ whole runs

  /** One operation, cut before its step number `cut` by an error or a crash. */
  datatype Event =
    | SignIn(account: Account, cut: nat)
    | SignOut(signingOut: Option<Account>, cut: nat)
    | Edit(account: Account, edited: Tables)

  function Steps(d: Disk, event: Event): seq<Step> {
    match event
    case SignIn(account, _) => ActivateSteps(d.marker, account)
    case SignOut(signingOut, _) => DeactivateSteps(d.marker, signingOut)
    case Edit(_, _) => []
  }

  function Perform(d: Disk, event: Event): Disk {
    if event.Edit? then d.(tables := event.edited) else After(d, Steps(d, event), Min(event.cut, |Steps(d, event)|))
  }

  function Credit(latest: Latest, event: Event): Latest {
    if event.Edit? then latest[event.account := event.edited] else latest
  }

  function DiskAfter(d: Disk, run: seq<Event>): Disk {
    if run == [] then d else Perform(DiskAfter(d, run[..|run| - 1]), run[|run| - 1])
  }

  function LatestAfter(latest: Latest, run: seq<Event>): Latest {
    if run == [] then latest else Credit(LatestAfter(latest, run[..|run| - 1]), run[|run| - 1])
  }

  /** Every edit is made while the marker names the editing account. */
  ghost predicate EditsOwn(d: Disk, run: seq<Event>) {
    forall i :: 0 <= i < |run| && run[i].Edit? ==> DiskAfter(d, run[..i]).marker == Some(run[i].account)
  }

  /**
    Over every run of sign-ins, sign-outs and edits, each interrupted anywhere: no account's layout is lost,
    saved under another account, or shown to another session.
  */
  lemma {:induction false} NothingLostOrMisattributed(d: Disk, latest: Latest, run: seq<Event>, reader: Option<Account>)
    requires Kept(d, latest) && EditsOwn(d, run)
    ensures Kept(DiskAfter(d, run), LatestAfter(latest, run))
    ensures ReadableBy(DiskAfter(d, run), reader) ==> reader.Some? && DiskAfter(d, run).tables == LatestOf(LatestAfter(latest, run), reader.value)
  {
    if run != [] {
      var init, event := run[..|run| - 1], run[|run| - 1];
      forall i | 0 <= i < |init| && init[i].Edit? ensures DiskAfter(d, init[..i]).marker == Some(init[i].account) {
        assert init[..i] == run[..i];
      }
      NothingLostOrMisattributed(d, latest, init, reader);
      var before, known := DiskAfter(d, init), LatestAfter(latest, init);
      match event {
        case SignIn(account, cut) => ActivateKeeps(before, known, account, Min(cut, |Steps(before, event)|));
        case SignOut(signingOut, cut) => DeactivateKeeps(before, known, signingOut, Min(cut, |Steps(before, event)|));
        case Edit(account, edited) => OwnEditKeeps(before, known, account, edited);
      }
    }
    ShownOnlyToOwner(DiskAfter(d, run), LatestAfter(latest, run), reader);
  }

  // ------------------------------------------------------------------ the layout of earlier releases

  /** No marker yet: the tables hold one unscoped layout, and every store what its account last left. */
  ghost predicate Unscoped(d: Disk, latest: Latest) {
    d.marker.None? && forall a: Account :: Restores(Stored(d, a), LatestOf(latest, a))
  }

  /** The first sign-in, or a sign-out that gets as far as its marker, credits the unscoped layout to that account. */
  lemma FirstClaim(d: Disk, latest: Latest, claimant: Account, cut: nat)
    requires Unscoped(d, latest) && 2 <= cut <= 3
    ensures Kept(After(d, ActivateSteps(None, claimant), 1), latest[claimant := d.tables])
    ensures Kept(After(d, DeactivateSteps(None, Some(claimant)), cut), latest[claimant := d.tables])
  {
    var signedIn, steps := Apply(d, Mark(claimant)), DeactivateSteps(None, Some(claimant));
    assert After(d, ActivateSteps(None, claimant), 1) == signedIn by { assert After(d, ActivateSteps(None, claimant), 0) == d; }
    SavedLayoutRestores(d.tables, EMPTY_TABLES);
    var claimed := latest[claimant := d.tables];
    var marked := Apply(Apply(d, Save(claimant)), Mark(NO_OWNER));
    assert After(d, steps, 0) == d && After(d, steps, 1) == Apply(d, Save(claimant)) && After(d, steps, 2) == marked;
    forall a: Account ensures AtHome(signedIn, claimed, a) && AtHome(marked, claimed, a) {
      assert Restores(Stored(d, a), LatestOf(latest, a));
    }
    StepKeeps(marked, claimed, Clear);
  }

  /**
    Without a marker a sign-out interrupted before its marker is written does not protect the layout: the next
    account to sign in is shown it as its own. Interrupted later, or not at all, the next account gets its own layout.
  */
  lemma InterruptedFirstSignOut(d: Disk, latest: Latest, leaving: Account, next: Account, cut: nat)
    requires Unscoped(d, latest) && leaving != next && cut <= 3 && d.tables != LatestOf(latest, next)
    ensures var out := After(d, DeactivateSteps(None, Some(leaving)), cut);
            var after := After(out, ActivateSteps(out.marker, next), |ActivateSteps(out.marker, next)|);
            && ReadableBy(after, Some(next))
            && (after.tables == LatestOf(latest, next) <==> cut >= 2)
            && (cut < 2 ==> after.tables == d.tables)
  {
    var steps := DeactivateSteps(None, Some(leaving));
    var out := After(d, steps, cut);
    if cut >= 2 {
      FirstClaim(d, latest, leaving, cut);
      ActivateKeeps(out, latest[leaving := d.tables], next, |ActivateSteps(out.marker, next)|);
    } else {
      assert After(d, steps, 0) == d && After(d, steps, 1) == Apply(d, Save(leaving));
      assert After(out, ActivateSteps(None, next), 0) == out;
      assert After(out, ActivateSteps(None, next), 1) == Apply(out, Mark(next));
    }
  }

  /** The account an operation credits with the unscoped layout while there is no marker. */
  function Claimant(event: Event): Option<Account> {
    match event
    case SignIn(account, cut) => if cut > 0 then Some(account) else None
    case SignOut(signingOut, cut) => if cut > 0 then signingOut else None
    case Edit(_, _) => None
  }

  /** What each account's layout is after an operation, from a disk with or without a marker. */
  function CreditFrom(d: Disk, latest: Latest, event: Event): Latest {
    if d.marker.Some? then Credit(latest, event)
    else if Claimant(event).Some? then latest[Claimant(event).value := d.tables]
    else latest
  }

  function LatestFrom(d: Disk, latest: Latest, run: seq<Event>): Latest {
    if run == [] then latest
    else CreditFrom(DiskAfter(d, run[..|run| - 1]), LatestFrom(d, latest, run[..|run| - 1]), run[|run| - 1])
  }

  /** Once a marker exists, every edit is made while it names the editing account. */
  ghost predicate MarkedEditsOwn(d: Disk, run: seq<Event>) {
    forall i :: 0 <= i < |run| && run[i].Edit? ==>
      DiskAfter(d, run[..i]).marker.Some? ==> DiskAfter(d, run[..i]).marker == Some(run[i].account)
  }

  ghost predicate Settled(d: Disk, latest: Latest) { Kept(d, latest) || Unscoped(d, latest) }

  /** The steps of a first sign-out, one by one. */
  lemma FirstSignOutSteps(d: Disk, account: Account)
    requires d.marker.None?
    ensures var steps := DeactivateSteps(None, Some(account));
            && After(d, steps, 0) == d && After(d, steps, 1) == Apply(d, Save(account))
            && After(d, steps, 2) == Apply(Apply(d, Save(account)), Mark(NO_OWNER))
            && After(d, steps, 3) == Apply(Apply(Apply(d, Save(account)), Mark(NO_OWNER)), Clear)
  {
    var steps := DeactivateSteps(None, Some(account));
    AfterOne(d, steps, 0);
    AfterOne(d, steps, 1);
    AfterOne(d, steps, 2);
  }

  /** Whatever happens to an unscoped layout, it stays unscoped or is credited to the account that claims it. */
  lemma UnscopedStep(d: Disk, latest: Latest, event: Event)
    requires Unscoped(d, latest)
    ensures Settled(Perform(d, event), CreditFrom(d, latest, event))
  {
    match event {
      case SignIn(account, cut) =>
        FirstClaim(d, latest, account, 2);
        assert After(d, ActivateSteps(None, account), 0) == d;
      case SignOut(signingOut, cut) =>
        if signingOut.Some? {
          FirstSignOutSteps(d, signingOut.value);
          if cut == 1 { SavedWithoutMarker(d, latest, signingOut.value); }
          if cut >= 2 { FirstClaim(d, latest, signingOut.value, Min(cut, 3)); }
        } else {
          assert After(d, [], 0) == d;
        }
      case Edit(_, _) =>
    }
  }

  lemma SavedWithoutMarker(d: Disk, latest: Latest, account: Account)
    requires Unscoped(d, latest)
    ensures Unscoped(Apply(d, Save(account)), latest[account := d.tables])
  {
    SavedLayoutRestores(d.tables, EMPTY_TABLES);
    forall a: Account ensures Restores(Stored(Apply(d, Save(account)), a), LatestOf(latest[account := d.tables], a)) {
      assert Restores(Stored(d, a), LatestOf(latest, a));
    }
  }

  /** An operation on a disk that has a marker. */
  lemma KeptStep(d: Disk, latest: Latest, event: Event)
    requires Kept(d, latest) && (event.Edit? ==> d.marker == Some(event.account))
    ensures Kept(Perform(d, event), CreditFrom(d, latest, event))
  {
    match event {
      case SignIn(account, cut) => ActivateKeeps(d, latest, account, Min(cut, |Steps(d, event)|));
      case SignOut(signingOut, cut) => DeactivateKeeps(d, latest, signingOut, Min(cut, |Steps(d, event)|));
      case Edit(account, edited) => OwnEditKeeps(d, latest, account, edited);
    }
  }

  /**
    Over every run that starts with an unscoped layout, interrupted anywhere: nothing is lost, the unscoped layout goes
    to the accounts that claim it before a marker exists, and from then on every session is shown its own layout only.
  */
  lemma {:induction false} RunFromUnscoped(d: Disk, latest: Latest, run: seq<Event>, reader: Option<Account>)
    requires Settled(d, latest) && MarkedEditsOwn(d, run)
    ensures Settled(DiskAfter(d, run), LatestFrom(d, latest, run))
    ensures DiskAfter(d, run).marker.Some? && ReadableBy(DiskAfter(d, run), reader) ==>
              reader.Some? && DiskAfter(d, run).tables == LatestOf(LatestFrom(d, latest, run), reader.value)
  {
    if run != [] {
      var init, event := run[..|run| - 1], run[|run| - 1];
      forall i | 0 <= i < |init| && init[i].Edit? && DiskAfter(d, init[..i]).marker.Some?
        ensures DiskAfter(d, init[..i]).marker == Some(init[i].account)
      {
        assert init[..i] == run[..i];
      }
      RunFromUnscoped(d, latest, init, reader);
      if Kept(DiskAfter(d, init), LatestFrom(d, latest, init)) {
        KeptStep(DiskAfter(d, init), LatestFrom(d, latest, init), event);
      } else {
        UnscopedStep(DiskAfter(d, init), LatestFrom(d, latest, init), event);
      }
    }
    if DiskAfter(d, run).marker.Some? { ShownOnlyToOwner(DiskAfter(d, run), LatestFrom(d, latest, run), reader); }
  }

  /** The run never gets as far as a marker. */
  ghost predicate StaysUnmarked(d: Disk, run: seq<Event>) {
    forall i :: 0 <= i <= |run| ==> DiskAfter(d, run[..i]).marker.None?
  }

  /** The tables as they were when a sign-out of this account was last interrupted between its save and its marker. */
  function CopiedAt(d: Disk, run: seq<Event>, account: Account): Option<Tables> {
    if run == [] then None
    else if run[|run| - 1] == SignOut(Some(account), 1) then Some(DiskAfter(d, run[..|run| - 1]).tables)
    else CopiedAt(d, run[..|run| - 1], account)
  }

  /** Without a marker exactly the interrupted sign-outs store anything, and each stores the tables of its moment. */
  lemma {:induction false} UnmarkedCopies(d: Disk, run: seq<Event>, account: Account)
    requires StaysUnmarked(d, run)
    ensures DiskAfter(d, run).marker.None?
    ensures var copied := CopiedAt(d, run, account);
            Stored(DiskAfter(d, run), account) == if copied.Some? then ReadTables(copied.value) else Stored(d, account)
  {
    assert run[..|run|] == run;
    if run != [] {
      var init, event := run[..|run| - 1], run[|run| - 1];
      assert StaysUnmarked(d, init) by {
        forall i | 0 <= i <= |init| ensures DiskAfter(d, init[..i]).marker.None? { assert init[..i] == run[..i]; }
      }
      UnmarkedCopies(d, init, account);
      UnmarkedEvent(DiskAfter(d, init), event, account);
    }
  }

  lemma UnmarkedEvent(d: Disk, event: Event, account: Account)
    requires d.marker.None? && Perform(d, event).marker.None?
    ensures Stored(Perform(d, event), account) == if event == SignOut(Some(account), 1) then ReadTables(d.tables) else Stored(d, account)
  {
    match event {
      case SignIn(a, cut) =>
        assert After(d, ActivateSteps(None, a), 0) == d;
        AfterOne(d, ActivateSteps(None, a), 0);
      case SignOut(signingOut, cut) =>
        if signingOut.Some? { FirstSignOutSteps(d, signingOut.value); } else { assert After(d, [], 0) == d; }
      case Edit(_, _) =>
    }
  }

  /**
    When `claimant` writes the first marker by signing in, the unscoped layout is its own; another account, which had
    none, holds it as well if and only if a sign-out of its own was interrupted between its save and its marker, and the
    layout was the same then.
  */
  lemma SharedIffInterrupted(d: Disk, run: seq<Event>, claimant: Account, other: Account)
    requires StaysUnmarked(d, run) && other != claimant
    requires Stored(d, other) == EMPTY_LAYOUT && DiskAfter(d, run).tables != EMPTY_TABLES
    ensures var tables := DiskAfter(d, run).tables;
            var after := Perform(DiskAfter(d, run), SignIn(claimant, 1));
            && after.marker == Some(claimant) && after.tables == tables
            && (Restores(Stored(after, other), tables) <==> CopiedAt(d, run, other) == Some(tables))
  {
    UnmarkedCopies(d, run, other);
    var before, copied := DiskAfter(d, run), CopiedAt(d, run, other);
    assert After(before, ActivateSteps(None, claimant), 0) == before;
    AfterOne(before, ActivateSteps(None, claimant), 0);
    if copied.Some? { SavedLayoutRestores(copied.value, EMPTY_TABLES); }
  }

  // ------------------------------------------------------------------ the operations on disk

  class SharedLayout {
    var marker: Option<nat>
    var tables: Tables
    var stores: map<Account, SavedLayout>

    function View(): Disk
      reads this
    {
      Disk(marker, tables, stores)
    }

    /** Read both tables into the account's store. */
    method SaveFor(owner: Account) returns (ok: bool)
      modifies this
      ensures View() == if ok then Apply(old(View()), Save(owner)) else old(View())
    {
      ok := *;
      if ok { stores := stores[owner := ReadTables(tables)]; }
    }

    /** Stage and rename: the marker changes at once or not at all. */
    method WriteMarker(owner: nat) returns (ok: bool)
      modifies this
      ensures View() == if ok then Apply(old(View()), Mark(owner)) else old(View())
    {
      ok := *;
      if ok { marker := Some(owner); }
    }

    /** Replace the tables by an account's stored layout, or by nothing. */
    method LoadTables(owner: Option<Account>) returns (ok: bool)
      modifies this
      ensures View() == if ok then Apply(old(View()), if owner.Some? then Load(owner.value) else Clear) else old(View())
    {
      ok := *;
      if !ok { return; }
      var layout := if owner.Some? then Stored(View(), owner.value) else EMPTY_LAYOUT;
      var written := WriteTables(tables, layout);
      tables, ok := written.0, written.1;
    }

    /** `done` counts the steps taken before the operation ended or was interrupted. */
    method Activate(owner: Account) returns (ok: bool, ghost done: nat)
      modifies this
      ensures var steps := ActivateSteps(old(marker), owner);
              && done <= |steps| && (ok <==> done == |steps|)
              && View() == After(old(View()), steps, done)
    {
      ghost var start, steps := View(), ActivateSteps(marker, owner);
      done, ok := 0, true;
      if marker == Some(owner) { return; }
      if marker.None? {
        ok := WriteMarker(owner);
        done := if ok then 1 else 0;
        return;
      }
      if marker.value != NO_OWNER {
        ok := SaveFor(marker.value);
        if !ok { return; }
        done := 1;
      }
      AfterOne(start, steps, 0);
      ok := WriteMarker(NO_OWNER);
      if !ok { return; }
      AfterOne(start, steps, done);
      done := done + 1;
      ok := LoadTables(Some(owner));
      if !ok { return; }
      AfterOne(start, steps, done);
      done := done + 1;
      AfterOne(start, steps, done);
      ok := WriteMarker(owner);
      if ok { done := done + 1; }
    }

    method Deactivate(signingOut: Option<Account>) returns (ok: bool, ghost done: nat)
      modifies this
      ensures var steps := DeactivateSteps(old(marker), signingOut);
              && done <= |steps| && (ok <==> done == |steps|)
              && View() == After(old(View()), steps, done)
    {
      ghost var start, steps := View(), DeactivateSteps(marker, signingOut);
      done, ok := 0, true;
      var owner: Option<Account>;
      match marker {
        case Some(m) => owner := if m == NO_OWNER then None else Some(m);
        case None => owner := signingOut;
      }
      if owner.Some? {
        ok := SaveFor(owner.value);
        if !ok { return; }
        done := 1;
      } else if marker.None? {
        return;
      }
      AfterOne(start, steps, 0);
      ok := WriteMarker(NO_OWNER);
      if !ok { return; }
      AfterOne(start, steps, done);
      done := done + 1;
      AfterOne(start, steps, done);
      ok := LoadTables(None);
      if ok { done := done + 1; }
    }

    /**
      Bring the session's layout into the tables and say whether they may be shown. Whatever goes wrong, no layout
      is lost, and tables are shown only when they are the session's account's latest layout.
    */
    method PrepareLayout(owner: Option<Account>, ghost latest: Latest) returns (shown: bool)
      requires Kept(View(), latest)
      modifies this
      ensures Kept(View(), latest)
      ensures shown ==> owner.Some? && marker == Some(owner.value) && tables == LatestOf(latest, owner.value)
      ensures owner.None? ==> !shown && View() == old(View())
    {
      if owner.Some? {
        ghost var done;
        var ok;
        ok, done := Activate(owner.value);
        ActivateKeeps(old(View()), latest, owner.value, done);
        if !ok { return false; }
      }
      shown := ReadableBy(View(), owner);
      ShownOnlyToOwner(View(), latest, owner);
    }
  }
}

/** What a thread's catalogue lists, and what a job does to it. */
module ArtifactCatalogue {
  import opened Options
  import opened Artifacts
  import Workflow

  predicate Visible(rows: seq<Row>, i: nat, thread: string, user: Option<nat>) {
    IsEntry(rows, i) && rows[i].key.thread == thread && (user.None? || rows[i].key.user == user.value)
  }

  // (updated_at, id) compared as pairs.
  predicate Newer(rows: seq<Row>, i: nat, j: nat)
    requires i < |rows| && j < |rows|
  {
    rows[i].updatedAt > rows[j].updatedAt || (rows[i].updatedAt == rows[j].updatedAt && i > j)
  }

  predicate NewestOfItsType(rows: seq<Row>, i: nat, thread: string, user: Option<nat>) {
    Visible(rows, i, thread, user) &&
    forall j: nat | j < |rows| && Visible(rows, j, thread, user) && rows[j].key.kind == rows[i].key.kind && j != i ::
      Newer(rows, i, j)
  }

  predicate NewestFirst(rows: seq<Row>, ids: seq<nat>) {
    (forall a | 0 <= a < |ids| :: ids[a] < |rows|) &&
    forall a, b | 0 <= a < b < |ids| :: Newer(rows, ids[a], ids[b])
  }

  // The newest of each type, newest first.
  ghost predicate IsCatalogue(rows: seq<Row>, thread: string, user: Option<nat>, ids: seq<nat>) {
    NewestFirst(rows, ids) && forall i: nat :: i in ids <==> NewestOfItsType(rows, i, thread, user)
  }

  // That is only one list.
  lemma {:induction false} SameNewestFirst(rows: seq<Row>, a: seq<nat>, b: seq<nat>)
    requires NewestFirst(rows, a) && NewestFirst(rows, b) && forall i :: i in a <==> i in b
    ensures a == b
  {
    EmptyTogether(a, b);
    EmptyTogether(b, a);
    if a != [] {
      assert a[0] in b && b[0] in a;
      assert a[0] == b[0];
      forall i
        ensures i in a[1..] <==> i in b[1..]
      {
        assert i in a <==> i == a[0] || i in a[1..];
        assert i in b <==> i == b[0] || i in b[1..];
        assert a[0] !in a[1..] && b[0] !in b[1..];
      }
      SameNewestFirst(rows, a[1..], b[1..]);
    }
  }

  lemma EmptyTogether(a: seq<nat>, b: seq<nat>)
    requires forall i :: i in a <==> i in b
    ensures a != [] ==> b != []
  {
    if a != [] {
      assert a[0] in b;
    }
  }

  // Each type is listed once, as the workflow relies on.
  lemma CatalogueOncePerType(rows: seq<Row>, thread: string, user: Option<nat>, ids: seq<nat>)
    requires IsCatalogue(rows, thread, user, ids)
    ensures Workflow.NoRepeats(Workflow.KindsOf(Entries(rows, ids)))
  {
    forall a, b | 0 <= a < b < |ids|
      ensures rows[ids[a]].key.kind != rows[ids[b]].key.kind
    {
      assert ids[a] in ids && ids[b] in ids && Newer(rows, ids[a], ids[b]);
      assert NewestOfItsType(rows, ids[b], thread, user) && NewestOfItsType(rows, ids[a], thread, user);
    }
  }

  function Entries(rows: seq<Row>, ids: seq<nat>): seq<Workflow.Artifact>
    requires forall a | 0 <= a < |ids| :: ids[a] < |rows|
  {
    seq(|ids|, a requires 0 <= a < |ids| => Workflow.Artifact(ids[a], rows[ids[a]].key.kind))
  }

  // For one user the choice of the newest never drops anything: the catalogue lists exactly the
  // entries of the user's keys in the thread.
  lemma CatalogueListsEntries(rows: seq<Row>, thread: string, user: nat, ids: seq<nat>, i: nat)
    requires OneEntry(rows) && IsCatalogue(rows, thread, Some(user), ids)
    ensures i in ids <==> Visible(rows, i, thread, Some(user))
    ensures i in ids <==> i < |rows| && rows[i].key.user == user && rows[i].key.thread == thread && EntryOf(rows, rows[i].key) == Some(i)
  {
    if i < |rows| {
      EntryFound(rows, rows[i].key);
    }
  }

  // ----- Jobs, whatever jobs on other keys do meanwhile

  // How far a job gets: no row; an exception once the row is committed but not yet handed over;
  // one before the row is ready; none; or one after that.
  datatype Progress =
    | NotCreated
    | HalfCreated
    | FailedEarly(failedAt: int)
    | Succeeded(clearedAt: int, readyAt: int)
    | FailedLate(clearedAt: int, readyAt: int, failedAt: int)

  // A revision knows its root from the start.
  function Creation(create: Op, id: nat): seq<Op> {
    if create.Create? then [create, FillRoot(id)] else [create]
  }

  // What a job on the row `id` commits.
  function JobOps(create: Op, id: nat, progress: Progress): seq<Op> {
    match progress
    case NotCreated => []
    case HalfCreated => [create]
    case FailedEarly(failedAt) => Creation(create, id) + [MarkFailed(id, failedAt)]
    case Succeeded(clearedAt, readyAt) => Creation(create, id) + [MarkReady(id, clearedAt, readyAt)]
    case FailedLate(clearedAt, readyAt, failedAt) =>
      Creation(create, id) + [MarkReady(id, clearedAt, readyAt)] + [MarkFailed(id, failedAt)]
  }

  predicate Creates(create: Op) {
    create.Create? || create.Revise?
  }

  // A run in which one job works on a key, between any operations on other keys.
  predicate JobRuns(rows: seq<Row>, ops: seq<Op>, key: Key, create: Op, id: nat, progress: Progress) {
    Creates(create) && |rows| <= id && Runs(rows, ops) && OpsOn(rows, ops, key) == JobOps(create, id, progress)
  }

  // The job keeps the entry of its key when it fails before its row is ready, replaces it when it
  // succeeds, and loses it when it fails after its row was ready.
  lemma JobEntry(rows: seq<Row>, ops: seq<Op>, key: Key, create: Op, id: nat, progress: Progress)
    requires Inv(rows) && JobRuns(rows, ops, key, create, id, progress)
    ensures EntryOf(After(rows, ops), key) ==
            match progress
            case Succeeded(_, _) => Some(id)
            case FailedLate(_, _, _) => None
            case _ => EntryOf(rows, key)
  {
    var entry := EntryOf(rows, key);
    EntryIsRegister(rows, ops, key);
    EntryFound(rows, key);
    CreationWrites(entry, create, id);
    match progress
    case NotCreated =>
    case HalfCreated =>
      WrittenMore(entry, [], create);
      assert [] + [create] == [create];
    case FailedEarly(failedAt) =>
      WrittenMore(entry, Creation(create, id), MarkFailed(id, failedAt));
    case Succeeded(clearedAt, readyAt) =>
      WrittenMore(entry, Creation(create, id), MarkReady(id, clearedAt, readyAt));
    case FailedLate(clearedAt, readyAt, failedAt) =>
      WrittenMore(entry, Creation(create, id), MarkReady(id, clearedAt, readyAt));
      WrittenMore(entry, Creation(create, id) + [MarkReady(id, clearedAt, readyAt)], MarkFailed(id, failedAt));
  }

  // Readers of the key see the row of the job if and only if the job succeeds.
  lemma EntryTellsSuccess(rows: seq<Row>, ops: seq<Op>, key: Key, create: Op, id: nat, progress: Progress)
    requires Inv(rows) && JobRuns(rows, ops, key, create, id, progress)
    ensures EntryOf(After(rows, ops), key) == Some(id) <==> progress.Succeeded?
  {
    JobEntry(rows, ops, key, create, id, progress);
    EntryFound(rows, key);
  }

  lemma CreationWrites(entry: Option<nat>, create: Op, id: nat)
    requires Creates(create)
    ensures Written(entry, Creation(create, id)) == entry
  {
    WrittenMore(entry, [], create);
    WrittenMore(entry, [create], FillRoot(id));
    assert [] + [create] == [create] && [create] + [FillRoot(id)] == [create, FillRoot(id)];
  }

  // A failed job leaves its key's entry alone unless it fails after the row was ready and the key
  // had an entry.
  lemma FailedJobKeepsEntry(rows: seq<Row>, ops: seq<Op>, key: Key, create: Op, id: nat, progress: Progress)
    requires Inv(rows) && JobRuns(rows, ops, key, create, id, progress) && !progress.Succeeded?
    ensures EntryOf(After(rows, ops), key) == EntryOf(rows, key) <==> !(progress.FailedLate? && EntryOf(rows, key).Some?)
  {
    JobEntry(rows, ops, key, create, id, progress);
  }

  // A table with one ready row, whose type a job revises.
  const KEY := Key(1, "thread", Workflow.Ppt)
  const ONE_READY := [Row(KEY, 1, None, Some(0), 1, true, Ready, 5)]

  // The job fails after its row was ready, and the type is left with no entry at all.
  lemma LateFailureLosesEntry() returns (ops: seq<Op>)
    ensures Inv(ONE_READY) && JobRuns(ONE_READY, ops, KEY, Revise(0, 6), 1, FailedLate(7, 7, 8))
    ensures EntryOf(ONE_READY, KEY) == Some(0) && EntryOf(After(ONE_READY, ops), KEY) == None
  {
    var revise, ready, failed := Revise(0, 6), MarkReady(1, 7, 7), MarkFailed(1, 8);
    ops := [revise, ready, failed];
    RunsMore(ONE_READY, [], revise, KEY);
    RunsMore(ONE_READY, [revise], ready, KEY);
    RunsMore(ONE_READY, [revise, ready], failed, KEY);
    assert [] + [revise] == [revise] && [revise] + [ready] == [revise, ready] && [revise, ready] + [failed] == ops;
    JobEntry(ONE_READY, ops, KEY, revise, 1, FailedLate(7, 7, 8));
  }

  // ----- Catalogues after jobs

  // Any number of jobs that fail before a row is ready, in any interleaving, change no catalogue
  // at all: the same rows, in the same order, with the same contents.
  lemma {:induction false} FailedJobsKeepRows(rows: seq<Row>, ops: seq<Op>)
    requires Runs(rows, ops) && forall k | 0 <= k < |ops| :: OnlyFails(ops[k], |rows|)
    ensures |rows| <= |After(rows, ops)|
    ensures forall i | 0 <= i < |rows| && rows[i].root.Some? :: After(rows, ops)[i] == rows[i]
    ensures forall i | 0 <= i < |rows| :: After(rows, ops)[i] == rows[i].(root := After(rows, ops)[i].root)
    ensures forall i | |rows| <= i < |After(rows, ops)| :: !After(rows, ops)[i].status.Ready?
    decreases |ops|
  {
    if ops != [] {
      var n := |ops| - 1;
      FailedJobsKeepRows(rows, ops[..n]);
      assert OnlyFails(ops[n], |rows|);
    }
  }

  // Marks no row ready, and no earlier row failed.
  predicate OnlyFails(op: Op, first: nat) {
    !op.MarkReady? && (op.MarkFailed? ==> op.id >= first)
  }

  lemma FailedJobsKeepCatalogue(rows: seq<Row>, ops: seq<Op>, thread: string, user: Option<nat>, ids: seq<nat>)
    requires Runs(rows, ops) && forall k | 0 <= k < |ops| :: OnlyFails(ops[k], |rows|)
    requires IsCatalogue(rows, thread, user, ids)
    ensures IsCatalogue(After(rows, ops), thread, user, ids)
    ensures forall i | i in ids && rows[i].root.Some? :: After(rows, ops)[i] == rows[i]
  {
    var later := After(rows, ops);
    FailedJobsKeepRows(rows, ops);
    assert forall i: nat :: Visible(later, i, thread, user) == Visible(rows, i, thread, user);
    forall i: nat
      ensures NewestOfItsType(later, i, thread, user) == NewestOfItsType(rows, i, thread, user)
    {
    }
  }

  // After any interleaving a user's catalogue of a thread lists what the operations on each of
  // the user's keys have written.
  lemma CatalogueFollowsOps(rows: seq<Row>, ops: seq<Op>, thread: string, user: nat, later: seq<nat>, i: nat)
    requires Inv(rows) && Runs(rows, ops) && IsCatalogue(After(rows, ops), thread, Some(user), later)
    ensures i in later <==>
            && i < |After(rows, ops)| && After(rows, ops)[i].key.user == user && After(rows, ops)[i].key.thread == thread
            && var key := After(rows, ops)[i].key; Written(EntryOf(rows, key), OpsOn(rows, ops, key)) == Some(i)
  {
    OpsKeep(rows, ops);
    CatalogueListsEntries(After(rows, ops), thread, user, later, i);
    if i < |After(rows, ops)| {
      EntryIsRegister(rows, ops, After(rows, ops)[i].key);
    }
  }

  // A successful job replaces exactly its own type's entry in its user's catalogue of the
  // thread; the entry of another type changes only by operations on that type.
  lemma SuccessReplacesOwnType(rows: seq<Row>, ops: seq<Op>, key: Key, create: Op, id: nat, progress: Progress,
                               ids: seq<nat>, later: seq<nat>, i: nat)
    requires Inv(rows) && JobRuns(rows, ops, key, create, id, progress) && progress.Succeeded?
    requires IsCatalogue(rows, key.thread, Some(key.user), ids)
    requires IsCatalogue(After(rows, ops), key.thread, Some(key.user), later)
    ensures id in later
    ensures i < |After(rows, ops)| && After(rows, ops)[i].key == key ==> (i in later <==> i == id)
    ensures i < |After(rows, ops)| && OpsOn(rows, ops, After(rows, ops)[i].key) == [] ==> (i in later <==> i in ids)
  {
    var done := After(rows, ops);
    OpsKeep(rows, ops);
    JobEntry(rows, ops, key, create, id, progress);
    EntryFound(done, key);
    CatalogueListsEntries(done, key.thread, key.user, later, id);
    CatalogueListsEntries(done, key.thread, key.user, later, i);
    CatalogueListsEntries(rows, key.thread, key.user, ids, i);
    if i < |done| && OpsOn(rows, ops, done[i].key) == [] {
      AvoidedRowsStay(rows, ops, done[i].key);
      EntryIsRegister(rows, ops, done[i].key);
    }
  }
}

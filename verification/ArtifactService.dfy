/** The artifact service and the artifact jobs on the table, as they run. */
module ArtifactService {
  import opened Options
  import opened Artifacts
  import opened ArtifactCatalogue
  import Workflow

  function Cleared(row: Row, clearedAt: int): Row {
    row.(current := false, updatedAt := clearedAt)
  }

  // Where a job raises: before it creates a row, once the row is committed but not handed over,
  // before the row is ready, or after that.
  datatype Faults = Faults(atStart: bool, halfCreated: bool, early: bool, late: bool)

  class ArtifactTable {
    var rows: seq<Row>

    constructor ()
      ensures rows == []
    {
      rows := [];
    }

    // What jobs on other keys commit while a job on this key is suspended.
    method Suspend(key: Key) returns (ghost others: seq<Op>)
      modifies this
      ensures Runs(old(rows), others) && rows == After(old(rows), others) && OpsOn(old(rows), others, key) == []
    {
      ghost var start := rows;
      others := [];
      var steps: int := *;
      for i := 0 to if steps < 0 then 0 else steps
        invariant Runs(start, others) && rows == After(start, others) && OpsOn(start, others, key) == []
      {
        var op: Op := *;
        if Enabled(rows, op) && KeyOf(rows, op) != key {
          RunsMore(start, others, op, key);
          others := others + [op];
          rows := Do(rows, op);
        }
      }
    }

    // The new row is committed, and if no root is given committed again with its own id as the
    // root. An exception can fall between the two: then no id is handed over.
    method CreateRunningArtifact(key: Key, plan: nat, parent: Option<nat>, root: Option<nat>, revision: Option<nat>, now: int,
                                 raised: bool)
      returns (id: nat, ghost others: seq<Op>)
      modifies this
      ensures id == |old(rows)| < |rows| && rows[id].status.Running? && (rows[id].current <==> parent.None?)
      ensures rows[id].key == key && rows[id].plan == plan && rows[id].parent == parent
      ensures rows[id].revision == OrOne(revision) >= 1 && (raised || root.Some? ==> rows[id].updatedAt == now)
      ensures !raised || root.Some? ==> rows[id].root == Some(if root.Some? then root.value else id)
      ensures forall i | 0 <= i < |rows| && rows[i].key == key && i != id :: i < id && rows[i] == old(rows)[i]
      ensures var inserted := old(rows) + [NewRow(key, plan, parent, root, revision, now)];
              && Runs(inserted, others) && OpsOn(inserted, others, key) == []
              && id < |After(inserted, others)|
              && rows == if !raised && root.None? then Do(After(inserted, others), FillRoot(id)) else After(inserted, others)
    {
      var initialRevision := if revision.None? || revision.value == 0 then 1 else revision.value;
      id := |rows|;
      rows := rows + [Row(key, plan, parent, root, initialRevision, parent.None?, Running, now)];
      ghost var inserted := rows;
      others := Suspend(key);
      AvoidedRowsStay(inserted, others, key);
      if !raised && rows[id].root.None? {
        rows := rows[id := rows[id].(root := Some(id))];
      }
    }

    method CreateRevisionArtifact(source: nat, now: int, raised: bool) returns (id: nat, ghost others: seq<Op>)
      requires source < |rows|
      modifies this
      ensures id == |old(rows)| < |rows| && rows[id].status.Running? && !rows[id].current
      ensures rows[id].key == old(rows)[source].key && rows[id].plan == old(rows)[source].plan
      ensures rows[id].parent == Some(source) && rows[id].root == Some(RootOf(old(rows), source))
      ensures rows[id].revision == OrOne(Some(old(rows)[source].revision)) + 1
      ensures var inserted := Do(old(rows), Revise(source, now));
              && Runs(inserted, others) && OpsOn(inserted, others, old(rows)[source].key) == []
              && rows == After(inserted, others)
    {
      var s := rows[source];
      var revision := if s.revision == 0 then 1 else s.revision;
      id, others :=
        CreateRunningArtifact(s.key, s.plan, Some(source), Some(s.root.UnwrapOr(source)), Some(revision + 1), now, raised);
    }

    method FindOtherCurrent(id: nat) returns (found: seq<nat>)
      requires id < |rows|
      ensures forall j :: j in found <==> j in OtherCurrent(rows, id)
    {
      found := [];
      for i := 0 to |rows|
        invariant forall j :: j in found <==> j < i && j in OtherCurrent(rows, id)
      {
        if i != id && rows[i].current && rows[i].key == rows[id].key {
          found := found + [i];
        }
      }
    }

    method ClearCurrent(found: seq<nat>, clearedAt: int)
      requires forall n | 0 <= n < |found| :: found[n] < |rows|
      modifies this
      ensures |rows| == |old(rows)|
      ensures forall j | 0 <= j < |rows| :: rows[j] == if j in found then Cleared(old(rows)[j], clearedAt) else old(rows)[j]
    {
      for n := 0 to |found|
        invariant |rows| == |old(rows)|
        invariant forall j | 0 <= j < |rows| ::
                    rows[j] == if j in found[..n] then Cleared(old(rows)[j], clearedAt) else old(rows)[j]
      {
        var i := found[n];
        rows := rows[i := Cleared(rows[i], clearedAt)];
        assert found[..n + 1] == found[..n] + [i];
      }
      assert found[..|found|] == found;
    }

    // Reads the other current rows of the key, and commits later, when jobs on other keys may have
    // committed too.
    method MarkArtifactReady(id: nat, clearedAt: int, now: int) returns (ghost others: seq<Op>)
      requires id < |rows|
      modifies this
      ensures Runs(old(rows), others) && OpsOn(old(rows), others, old(rows)[id].key) == []
      ensures id < |After(old(rows), others)| && rows == Do(After(old(rows), others), MarkReady(id, clearedAt, now))
      ensures id < |rows| && rows[id].status.Ready? && rows[id].current && rows[id].updatedAt == now
      ensures forall i | 0 <= i < |old(rows)| && i != id && old(rows)[i].key == rows[id].key ::
                i < |rows| && rows[i] == if old(rows)[i].current then old(rows)[i].(current := false, updatedAt := clearedAt) else old(rows)[i]
      ensures forall i | 0 <= i < |rows| && i != id && rows[i].key == rows[id].key :: !rows[i].current
    {
      ghost var start := rows;
      var found := FindOtherCurrent(id);
      others := Suspend(rows[id].key);
      AvoidedRowsStay(start, others, start[id].key);
      ReadEarlyWriteLate(start, others, id, clearedAt, now);
      forall n | 0 <= n < |found|
        ensures found[n] < |rows| && found[n] != id
      {
        assert found[n] in found;
      }
      ClearCurrent(found, clearedAt);
      rows := rows[id := rows[id].(status := Ready, current := true, updatedAt := now)];
    }

    method MarkArtifactFailed(id: nat, now: int)
      requires id < |rows|
      modifies this
      ensures rows == Do(old(rows), MarkFailed(id, now))
      ensures |rows| == |old(rows)| && rows[id].status.Failed? && rows[id] == old(rows)[id].(status := Failed, updatedAt := now)
      ensures forall i | 0 <= i < |rows| && i != id :: rows[i] == old(rows)[i]
    {
      rows := rows[id := rows[id].(status := Failed, updatedAt := now)];
    }

    // _run_artifact_job: the times, and what jobs on other keys do meanwhile, are left open. The
    // job succeeds exactly when it can start and nothing raises. Its row is then ready, and the
    // entry that readers of its key see; otherwise it is no entry, and failed if the job knows it.
    method RunArtifactJob(create: Op, faults: Faults)
      returns (outcome: Workflow.Outcome, ghost ops: seq<Op>, ghost id: nat, ghost progress: Progress)
      requires Inv(rows) && Creates(create)
      modifies this
      ensures outcome.Made? <==> Enabled(old(rows), create) && faults == Faults(false, false, false, false)
      ensures !Enabled(old(rows), create) ==> rows == old(rows)
      ensures Enabled(old(rows), create) ==>
                var key := KeyOf(old(rows), create);
                && JobRuns(old(rows), ops, key, create, id, progress) && rows == After(old(rows), ops)
                && (outcome.Made? <==> progress.Succeeded?)
                && (outcome.Made? <==> EntryOf(rows, key) == Some(id)) && (outcome.Made? ==> outcome.id == id)
                && (outcome.Raised? ==> outcome.row == if progress.NotCreated? || progress.HalfCreated? then None else Some(id))
      ensures outcome.Made? ==> outcome.id < |rows| && rows[outcome.id].status.Ready? && rows[outcome.id].current
      ensures outcome.Raised? && outcome.row.Some? ==> outcome.row.value < |rows| && rows[outcome.row.value].status.Failed?
      ensures Inv(rows)
    {
      ops, id, progress := [], |rows|, NotCreated;
      if faults.atStart || !Enabled(rows, create) {
        if Enabled(rows, create) {
          EntryTellsSuccess(rows, ops, KeyOf(rows, create), create, id, progress);
        }
        return Workflow.Raised(None, "not created"), ops, id, progress;
      }
      ghost var start := rows;
      ghost var key := KeyOf(rows, create);
      var made;
      made, ops := CreateForJob(create, faults.halfCreated);
      id := made;
      if faults.halfCreated {
        progress := HalfCreated;
        outcome := Workflow.Raised(None, "creation failed");
      } else {
        outcome, ops, progress := FinishJob(create, key, made, faults, start, ops);
      }
      OpsKeep(start, ops);
      EntryTellsSuccess(start, ops, key, create, id, progress);
    }

    method CreateForJob(create: Op, raised: bool) returns (id: nat, ghost ops: seq<Op>)
      requires Creates(create) && Enabled(rows, create)
      modifies this
      ensures id == |old(rows)| < |rows| && Runs(old(rows), ops) && rows == After(old(rows), ops)
      ensures rows[id].key == KeyOf(old(rows), create)
      ensures OpsOn(old(rows), ops, KeyOf(old(rows), create)) == if raised then [create] else Creation(create, id)
    {
      ghost var start := rows;
      ghost var key := KeyOf(rows, create);
      ghost var others;
      if create.Create? {
        id, others := CreateRunningArtifact(create.key, create.plan, None, None, None, create.now, raised);
      } else {
        id, others := CreateRevisionArtifact(create.source, create.now, raised);
      }
      ops := CreationRuns(start, create, key, others);
      AvoidedRowsStay(Do(start, create), others, key);
      if create.Create? && !raised {
        RunsMore(start, ops, FillRoot(id), key);
        ops := ops + [FillRoot(id)];
      }
    }

    method FinishJob(create: Op, ghost key: Key, id: nat, faults: Faults, ghost start: seq<Row>, ghost before: seq<Op>)
      returns (outcome: Workflow.Outcome, ghost ops: seq<Op>, ghost progress: Progress)
      requires Creates(create) && id < |rows| && rows[id].key == key
      requires Runs(start, before) && rows == After(start, before) && OpsOn(start, before, key) == Creation(create, id)
      modifies this
      ensures Runs(start, ops) && rows == After(start, ops) && OpsOn(start, ops, key) == JobOps(create, id, progress)
      ensures !progress.NotCreated? && !progress.HalfCreated? && (outcome.Made? <==> progress.Succeeded?)
      ensures outcome.Made? <==> !faults.early && !faults.late
      ensures if outcome.Made? then outcome.id == id else outcome.row == Some(id)
      ensures id < |rows| && if outcome.Made? then rows[id].status.Ready? && rows[id].current else rows[id].status.Failed?
    {
      var clearedAt: int, readyAt: int, failedAt: int := *, *, *;
      ops := SuspendJob(key, id, start, before);
      if faults.early {
        ops := Fail(key, id, failedAt, start, ops);
        return Workflow.Raised(Some(id), "failed"), ops, FailedEarly(failedAt);
      }
      ghost var others := MarkArtifactReady(id, clearedAt, readyAt);
      AvoidedRowsStay(After(start, ops), others, key);
      RunsOneAfterAnother(start, ops, others, key);
      RunsMore(start, ops + others, MarkReady(id, clearedAt, readyAt), key);
      ops := ops + others + [MarkReady(id, clearedAt, readyAt)];
      ops := SuspendJob(key, id, start, ops);
      if faults.late {
        ops := Fail(key, id, failedAt, start, ops);
        return Workflow.Raised(Some(id), "failed"), ops, FailedLate(clearedAt, readyAt, failedAt);
      }
      outcome, progress := Workflow.Made(id), Succeeded(clearedAt, readyAt);
    }

    method SuspendJob(ghost key: Key, id: nat, ghost start: seq<Row>, ghost before: seq<Op>) returns (ghost ops: seq<Op>)
      requires id < |rows| && rows[id].key == key && Runs(start, before) && rows == After(start, before)
      modifies this
      ensures id < |rows| && rows[id] == old(rows)[id] && Runs(start, ops) && rows == After(start, ops)
      ensures OpsOn(start, ops, key) == OpsOn(start, before, key)
    {
      ghost var others := Suspend(rows[id].key);
      AvoidedRowsStay(After(start, before), others, key);
      RunsOneAfterAnother(start, before, others, key);
      ops := before + others;
    }

    method Fail(ghost key: Key, id: nat, failedAt: int, ghost start: seq<Row>, ghost before: seq<Op>)
      returns (ghost ops: seq<Op>)
      requires id < |rows| && rows[id].key == key && Runs(start, before) && rows == After(start, before)
      modifies this
      ensures Runs(start, ops) && rows == After(start, ops)
      ensures OpsOn(start, ops, key) == OpsOn(start, before, key) + [MarkFailed(id, failedAt)]
      ensures id < |rows| && rows[id].status.Failed?
    {
      RunsMore(start, before, MarkFailed(id, failedAt), key);
      ops := before + [MarkFailed(id, failedAt)];
      MarkArtifactFailed(id, failedAt);
    }

    // Rows sorted by (updated_at, id), the newest first.
    method InsertByAge(ids: seq<nat>, x: nat) returns (r: seq<nat>)
      requires NewestFirst(rows, ids) && x < |rows| && x !in ids
      ensures NewestFirst(rows, r) && forall i :: i in r <==> i in ids || i == x
    {
      var n := 0;
      while n < |ids| && Newer(rows, ids[n], x)
        invariant n <= |ids| && forall a | 0 <= a < n :: Newer(rows, ids[a], x)
      {
        n := n + 1;
      }
      r := ids[..n] + [x] + ids[n..];
      StillNewestFirst(rows, ids, n, x);
    }

    method ListReadyCurrent(thread: string, user: Option<nat>) returns (ids: seq<nat>)
      ensures NewestFirst(rows, ids) && forall i: nat :: i in ids <==> Visible(rows, i, thread, user)
    {
      ids := [];
      for i := 0 to |rows|
        invariant NewestFirst(rows, ids)
        invariant forall j: nat :: j in ids <==> j < i && Visible(rows, j, thread, user)
      {
        if Visible(rows, i, thread, user) {
          ids := InsertByAge(ids, i);
        }
      }
    }

    // The catalogue: the newest of each type in a dictionary, then sorted.
    method ListLatestReadyCurrent(thread: string, user: Option<nat>) returns (ids: seq<nat>)
      ensures IsCatalogue(rows, thread, user, ids)
      // later before earlier, and of one time the higher id before the lower
      ensures forall a, b | 0 <= a < b < |ids| ::
                && ids[a] < |rows| && ids[b] < |rows| && rows[ids[a]].updatedAt >= rows[ids[b]].updatedAt
                && (rows[ids[a]].updatedAt == rows[ids[b]].updatedAt ==> ids[a] > ids[b])
      // of the visible rows of a type the last, and of those the one with the highest id
      ensures forall i, j: nat | i in ids && j < |rows| && Visible(rows, j, thread, user) ::
                i < |rows| && (rows[j].key.kind == rows[i].key.kind ==>
                  rows[j].updatedAt <= rows[i].updatedAt && (rows[j].updatedAt == rows[i].updatedAt ==> j <= i))
    {
      var artifacts := ListReadyCurrent(thread, user);
      var latestByType := LatestByType(artifacts);
      ids := Sorted(latestByType);
      LatestAreNewest(rows, thread, user, artifacts, latestByType);
    }

    method LatestByType(artifacts: seq<nat>) returns (latestByType: map<Workflow.Kind, nat>)
      requires forall a | 0 <= a < |artifacts| :: artifacts[a] < |rows|
      ensures forall k | k in latestByType :: NewestSoFar(rows, artifacts, |artifacts|, k, latestByType[k])
      ensures forall a | 0 <= a < |artifacts| :: rows[artifacts[a]].key.kind in latestByType
    {
      latestByType := map[];
      for n := 0 to |artifacts|
        invariant forall k | k in latestByType :: NewestSoFar(rows, artifacts, n, k, latestByType[k])
        invariant forall a | 0 <= a < n :: rows[artifacts[a]].key.kind in latestByType
      {
        var i := artifacts[n];
        var kind := rows[i].key.kind;
        if kind !in latestByType || Newer(rows, i, latestByType[kind]) {
          latestByType := latestByType[kind := i];
        }
      }
    }

    method Sorted(latestByType: map<Workflow.Kind, nat>) returns (ids: seq<nat>)
      requires forall k | k in latestByType :: latestByType[k] < |rows| && rows[latestByType[k]].key.kind == k
      ensures NewestFirst(rows, ids)
      ensures forall i: nat :: i in ids <==> i < |rows| && rows[i].key.kind in latestByType && latestByType[rows[i].key.kind] == i
    {
      ids := [];
      var kinds := latestByType.Keys;
      while kinds != {}
        invariant kinds <= latestByType.Keys && NewestFirst(rows, ids)
        invariant forall i: nat :: i in ids <==>
                    i < |rows| && rows[i].key.kind in latestByType.Keys - kinds && latestByType[rows[i].key.kind] == i
        decreases kinds
      {
        var kind :| kind in kinds;
        ids := InsertByAge(ids, latestByType[kind]);
        kinds := kinds - {kind};
      }
    }
  }

  lemma StillNewestFirst(rows: seq<Row>, ids: seq<nat>, n: nat, x: nat)
    requires NewestFirst(rows, ids) && x < |rows| && x !in ids && n <= |ids|
    requires (forall a | 0 <= a < n :: Newer(rows, ids[a], x)) && (n < |ids| ==> !Newer(rows, ids[n], x))
    ensures var r := ids[..n] + [x] + ids[n..]; NewestFirst(rows, r) && forall i :: i in r <==> i in ids || i == x
  {
    var r := ids[..n] + [x] + ids[n..];
    forall b | n <= b < |ids|
      ensures Newer(rows, x, ids[b])
    {
      assert ids[n] in ids && (b > n ==> Newer(rows, ids[n], ids[b]));
    }
    forall a, b | 0 <= a < b < |r|
      ensures Newer(rows, r[a], r[b])
    {
      assert r[a] == if a < n then ids[a] else if a == n then x else ids[a - 1];
      assert r[b] == if b < n then ids[b] else if b == n then x else ids[b - 1];
    }
    assert ids == ids[..n] + ids[n..];
  }

  // i is the newest of its type among the first n.
  predicate NewestSoFar(rows: seq<Row>, ids: seq<nat>, n: nat, kind: Workflow.Kind, i: nat)
    requires n <= |ids| && forall a | 0 <= a < |ids| :: ids[a] < |rows|
  {
    && (exists a | 0 <= a < n :: ids[a] == i) && rows[i].key.kind == kind
    && forall a | 0 <= a < n && rows[ids[a]].key.kind == kind && ids[a] != i :: Newer(rows, i, ids[a])
  }

  lemma CreationRuns(start: seq<Row>, create: Op, key: Key, others: seq<Op>) returns (ops: seq<Op>)
    requires Creates(create) && Enabled(start, create) && key == KeyOf(start, create)
    requires Runs(Do(start, create), others) && OpsOn(Do(start, create), others, key) == []
    ensures Runs(start, ops) && After(start, ops) == After(Do(start, create), others)
    ensures OpsOn(start, ops, key) == [create]
  {
    RunsMore(start, [], create, key);
    assert [] + [create] == [create];
    RunsOneAfterAnother(start, [create], others, key);
    ops := [create] + others;
  }

  // The dictionary at the end of the loop holds the newest of each type.
  lemma LatestAreNewest(rows: seq<Row>, thread: string, user: Option<nat>, artifacts: seq<nat>,
                        latest: map<Workflow.Kind, nat>)
    requires forall i: nat :: i in artifacts <==> Visible(rows, i, thread, user)
    requires forall i | i in artifacts :: i < |rows|
    requires forall a | 0 <= a < |artifacts| :: artifacts[a] < |rows|
    requires forall k | k in latest :: NewestSoFar(rows, artifacts, |artifacts|, k, latest[k])
    requires forall a | 0 <= a < |artifacts| :: rows[artifacts[a]].key.kind in latest
    ensures forall i: nat :: NewestOfItsType(rows, i, thread, user) <==>
              i < |rows| && rows[i].key.kind in latest && latest[rows[i].key.kind] == i
  {
    forall i: nat | i in artifacts
      ensures NewestOfItsType(rows, i, thread, user) <==> latest[rows[i].key.kind] == i
    {
      var newest := latest[rows[i].key.kind];
      assert NewestSoFar(rows, artifacts, |artifacts|, rows[i].key.kind, newest);
    }
  }
}

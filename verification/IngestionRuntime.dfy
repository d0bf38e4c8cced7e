/** The ingestion runtime itself: the queue, the worker loop and the recovery at start-up, with
    no request arriving meanwhile. Its steps are those of the protocol in `Ingestion`. */
module IngestionRuntime {
  import opened Ingestion
  import opened Sequences

  // get_recoverable_file_ids: the ids below n to be queued again, in order.
  function Recoverable(db: map<FileId, Row>, n: nat): seq<FileId> {
    if n == 0 then []
    else Recoverable(db, n - 1) + (if n - 1 in db && Pending(db[n - 1]) then [n - 1] else [])
  }

  function WithoutIndexing(db: map<FileId, Row>): map<FileId, Row> {
    map f | f in db :: if db[f].status == Indexing then db[f].(status := Uploaded) else db[f]
  }

  // Exactly the pending files, each once, in id order.
  lemma {:induction false} RecoverableExactly(db: map<FileId, Row>, n: nat)
    ensures forall f :: f in Recoverable(db, n) <==> f < n && f in db && Pending(db[f])
    ensures forall i, j | 0 <= i < j < |Recoverable(db, n)| :: Recoverable(db, n)[i] < Recoverable(db, n)[j]
  {
    if n > 0 {
      RecoverableExactly(db, n - 1);
      var r := Recoverable(db, n - 1);
      assert forall i | 0 <= i < |r| :: r[i] in r;
    }
  }

  lemma {:induction false} RunsOneAfterAnother(s: State, x: seq<Action>, y: seq<Action>)
    requires Rooted(s) && Runs(s, x) && Runs(After(s, x), y)
    ensures Runs(s, x + y) && After(s, x + y) == After(After(s, x), y)
    decreases |x|
  {
    if x == [] {
      assert x + y == y;
    } else {
      var t := Do(s, x[0]);
      RootedKept(s, x[0]);
      RunsOneAfterAnother(t, x[1..], y);
      var run := RunFrom(s, x[0], t, x[1..] + y);
      TailOfSum(x, y);
    }
  }

  // From where a file is picked to where it is marked and its row loaded again.
  lemma PickedToRefreshed(s: State, f: FileId, refreshed: State, rest: seq<Action>) returns (turn: seq<Action>)
    requires Rooted(s) && f in s.db && s.worker == Picked(f, s.db[f])
    requires var indexing := s.db[f].(status := Indexing);
             refreshed == s.(db := s.db[f := indexing], worker := Refreshed(f, indexing))
    requires Rooted(refreshed) && Runs(refreshed, rest)
    ensures Runs(s, turn) && After(s, turn) == After(refreshed, rest)
  {
    var marked := refreshed.(worker := Marked(f));
    turn := RunFrom(marked, Refresh, refreshed, rest);
    turn := RunFrom(s, MarkIndexing, marked, turn);
  }

  // From where a file's chunks are gone to where its documents are added and the file is ready.
  lemma ClearedToReady(s: State, f: FileId, parts: seq<string>, done: State) returns (turn: seq<Action>)
    requires Rooted(s) && f in s.db && s.worker == Cleared(f, s.db[f], parts) && s.db[f].status == Indexing
    requires done == s.(db := s.db[f := s.db[f].(status := Ready, chunkCount := |parts|)],
                        index := s.index + Enriched(f, parts), worker := Idle)
    ensures Rooted(done) && Runs(s, turn) && After(s, turn) == done
  {
    var indexed := s.(index := done.index, worker := Indexed(f, s.db[f], parts));
    turn := RunFrom(indexed, MarkReady, done, []);
    turn := RunFrom(s, AddChunks, indexed, turn);
  }

  lemma ChunksAdded(index: seq<Chunk>, f: FileId, parts: seq<string>)
    requires ChunksOf(index, f) == []
    ensures forall g :: ChunksOf(index + Enriched(f, parts), g) == if g == f then Enriched(f, parts) else ChunksOf(index, g)
  {
    forall g
      ensures ChunksOf(index + Enriched(f, parts), g) == if g == f then Enriched(f, parts) else ChunksOf(index, g)
    {
      ChunksAppend(index, Enriched(f, parts), g);
      ChunksOfFile(Enriched(f, parts), f, g);
    }
  }

  // Which of the calls that reindexing a file makes raise: reading and splitting it, deleting its
  // chunks, adding the new ones.
  datatype Faults = Faults(loading: bool, deleting: bool, adding: bool)

  const NO_FAULT := Faults(false, false, false)

  // How reindexing f ends.
  function Outcome(s: State, f: FileId, faults: Faults): Status
    requires f in s.db
  {
    if s.db[f].supported && f in s.store && s.store[f].Readable? && faults == NO_FAULT then Ready else Failed
  }

  // i is the last round that takes f.
  predicate LastRound(taken: seq<FileId>, f: FileId, i: nat) {
    i < |taken| && taken[i] == f && f !in taken[i + 1..]
  }

  // Every file taken that is not deleted has been dealt with, and nothing else has changed. What
  // raises in round i is faults(i).
  ghost predicate DealtWith(s: State, taken: seq<FileId>, faults: nat -> Faults, t: State) {
    && OthersKept(s, taken, t)
    && (forall f | f in s.db && f in taken && s.db[f].status != Deleted ::
          (t.db[f].status == Ready || t.db[f].status == Failed) && UpToDate(t, f))
    && (forall f, i | f in s.db && s.db[f].status != Deleted && LastRound(taken, f, i) ::
          t.db[f].status == Outcome(s, f, faults(i)))
  }

  ghost predicate OthersKept(s: State, taken: seq<FileId>, t: State) {
    && t.db.Keys == s.db.Keys && t.store == s.store
    && (forall f | f in s.db :: t.db[f].supported == s.db[f].supported)
    && (forall f | f in s.db && (f !in taken || s.db[f].status == Deleted) :: t.db[f] == s.db[f])
    && (forall f | f !in taken :: ChunksOf(t.index, f) == ChunksOf(s.index, f))
  }

  // One round with the file f.
  ghost predicate RoundDone(s: State, f: FileId, faults: Faults, t: State) {
    && OthersKept(s, [f], t)
    && (f in s.db && s.db[f].status != Deleted ==> t.db[f].status == Outcome(s, f, faults) && UpToDate(t, f))
  }

  lemma OthersKeptOneMore(s: State, taken: seq<FileId>, t: State, f: FileId, u: State)
    requires OthersKept(s, taken, t) && OthersKept(t, [f], u)
    ensures OthersKept(s, taken + [f], u)
  {
  }

  // The last round of g stays the last, unless g is taken again.
  lemma LastRoundBefore(taken: seq<FileId>, f: FileId, g: FileId, i: nat)
    requires LastRound(taken + [f], g, i)
    ensures if i == |taken| then f == g else f != g && LastRound(taken, g, i)
  {
    if i < |taken| {
      assert (taken + [f])[i + 1..] == taken[i + 1..] + [f];
    }
  }

  lemma DealtWithOneMore(s: State, taken: seq<FileId>, faults: nat -> Faults, t: State, f: FileId, u: State)
    requires DealtWith(s, taken, faults, t) && RoundDone(t, f, faults(|taken|), u)
    ensures DealtWith(s, taken + [f], faults, u)
  {
    OthersKeptOneMore(s, taken, t, f, u);
    forall g, i: nat | g in s.db && s.db[g].status != Deleted && LastRound(taken + [f], g, i)
      ensures u.db[g].status == Outcome(s, g, faults(i))
    {
      LastRoundBefore(taken, f, g, i);
    }
  }

  // A run that has dealt with the first files of the queue, and with nothing else.
  ghost predicate Drained(s: State, run: seq<Action>, done: nat, faults: nat -> Faults, t: State)
    requires Rooted(s)
  {
    && Runs(s, run) && t == After(s, run)
    && done <= |s.queue| && t.queue == s.queue[done..] && DealtWith(s, s.queue[..done], faults, t)
  }

  lemma DrainedOneMore(s: State, run: seq<Action>, done: nat, faults: nat -> Faults, t: State, turn: seq<Action>, u: State)
    requires Rooted(s) && Rooted(t) && Drained(s, run, done, faults, t) && t.queue != []
    requires Runs(t, turn) && u == After(t, turn)
    requires u.queue == t.queue[1..] && RoundDone(t, t.queue[0], faults(done), u)
    ensures Drained(s, run + turn, done + 1, faults, u)
  {
    RunsOneAfterAnother(s, run, turn);
    DealtWithOneMore(s, s.queue[..done], faults, t, t.queue[0], u);
    assert s.queue[..done + 1] == s.queue[..done] + [t.queue[0]];
  }

  // What a restart from s leaves: t.
  ghost predicate Restarted(s: State, faults: nat -> Faults, t: State) {
    && t.db.Keys == s.db.Keys && t.store == s.store && (forall f | f in t.db :: !Pending(t.db[f]))
    && (forall f | f in t.db && Pending(s.db[f]) :: UpToDate(t, f))
    && (forall f | f in t.db && !Pending(s.db[f]) :: t.db[f] == s.db[f])
    && (AllUpToDate(t) <==> AllUpToDate(s))
    && forall i: nat | i < |Recoverable(s.db, s.nextId)| :: Recovered(s, Recoverable(s.db, s.nextId)[i], faults(i), t)
  }

  // A file that is taken once ends ready exactly if it can be read and nothing raises.
  predicate Recovered(s: State, f: FileId, faults: Faults, t: State) {
    && f in s.db && f in t.db && (t.db[f].status == Ready || t.db[f].status == Failed)
    && (t.db[f].status == Ready <==>
          s.db[f].supported && f in s.store && s.store[f].Readable? && faults == Faults(false, false, false))
  }

  // The files that are queued again, as recovery leaves them.
  function Requeued(s: State): State {
    s.(db := WithoutIndexing(s.db), queue := Recoverable(s.db, s.nextId))
  }

  lemma RestartDone(s: State, faults: nat -> Faults, t: State)
    requires (forall f | f in s.db :: f < s.nextId) && DealtWith(Requeued(s), Requeued(s).queue, faults, t)
    ensures Restarted(s, faults, t)
  {
    RecoverableExactly(s.db, s.nextId);
    NothingPending(s, faults, t);
    forall i: nat | i < |Recoverable(s.db, s.nextId)|
      ensures Recovered(s, Recoverable(s.db, s.nextId)[i], faults(i), t)
    {
      RecoveredOutcome(s, faults, t, i);
    }
  }

  lemma NothingPending(s: State, faults: nat -> Faults, t: State)
    requires (forall f | f in s.db :: f < s.nextId) && DealtWith(Requeued(s), Requeued(s).queue, faults, t)
    ensures t.db.Keys == s.db.Keys && forall f | f in t.db :: !Pending(t.db[f])
    ensures forall f | f in t.db && Pending(s.db[f]) :: UpToDate(t, f)
    ensures forall f | f in t.db && !Pending(s.db[f]) :: t.db[f] == s.db[f]
    ensures AllUpToDate(t) <==> AllUpToDate(s)
  {
    RecoverableExactly(s.db, s.nextId);
    forall f | f in s.db
      ensures UpToDate(t, f) <==> Pending(s.db[f]) || UpToDate(s, f)
    {
    }
  }

  lemma RecoveredOutcome(s: State, faults: nat -> Faults, t: State, i: nat)
    requires (forall f | f in s.db :: f < s.nextId) && DealtWith(Requeued(s), Requeued(s).queue, faults, t)
    requires i < |Recoverable(s.db, s.nextId)|
    ensures Recovered(s, Recoverable(s.db, s.nextId)[i], faults(i), t)
  {
    var r := Recoverable(s.db, s.nextId);
    RecoverableExactly(s.db, s.nextId);
    assert r[i] in r;
    assert LastRound(r, r[i], i);
  }

  // Every ready file is up to date.
  ghost predicate AllUpToDate(s: State) {
    forall f | f in s.db :: UpToDate(s, f)
  }

  class FileIngestionRuntime {
    var db: map<FileId, Row>
    var nextId: FileId
    var store: map<FileId, Content>
    var index: seq<Chunk>
    var queue: seq<FileId>

    function Snapshot(): State
      reads this
    {
      State(db, nextId, store, index, queue, Idle, [])
    }

    constructor (db: map<FileId, Row>, nextId: FileId, store: map<FileId, Content>, index: seq<Chunk>)
      ensures Snapshot() == State(db, nextId, store, index, [], Idle, [])
    {
      this.db, this.nextId, this.store, this.index, this.queue := db, nextId, store, index, [];
    }

    method GetRecoverableFileIds() returns (ids: seq<FileId>)
      requires forall f | f in db :: f < nextId
      modifies this`db
      ensures ids == Recoverable(old(db), nextId)
      ensures db == WithoutIndexing(old(db)) && db.Keys == old(db).Keys
      ensures forall f | f in db :: db[f].status != Indexing
      ensures forall f | f in db :: db[f] == old(db)[f] || (old(db)[f].status == Indexing && db[f] == old(db)[f].(status := Uploaded))
    {
      ids := [];
      for f := 0 to nextId
        invariant ids == Recoverable(old(db), f)
        invariant db == map g | g in old(db) :: if g < f then WithoutIndexing(old(db))[g] else old(db)[g]
      {
        if f in db && Pending(db[f]) {
          if db[f].status == Indexing {
            db := db[f := db[f].(status := Uploaded)];
          }
          ids := ids + [f];
        }
      }
    }

    method RecoverPendingFiles()
      requires Rooted(Snapshot())
      modifies this`db, this`queue
      ensures queue == old(queue) + Recoverable(old(db), nextId)
      ensures db == WithoutIndexing(old(db)) && Rooted(Snapshot())
    {
      var ids := GetRecoverableFileIds();
      for i := 0 to |ids|
        invariant queue == old(queue) + ids[..i] && db == WithoutIndexing(old(db))
      {
        queue := queue + [ids[i]];
      }
      assert ids[..|ids|] == ids;
    }

    // The loop that numbers a file's documents.
    static method Enrich(f: FileId, parts: seq<string>) returns (documents: seq<Chunk>)
      ensures documents == Enriched(f, parts)
      ensures |documents| == |parts|
      ensures forall i | 0 <= i < |parts| :: documents[i].file == f && documents[i].index == i && documents[i].text == parts[i]
    {
      documents := [];
      for i := 0 to |parts|
        invariant documents == Enriched(f, parts)[..i]
      {
        documents := documents + [Chunk(f, i, parts[i])];
      }
    }

    // What is left of f's turn from s on keeps every other file's row and chunks, and leaves f
    // up to date and with the given status.
    twostate predicate TurnDone(f: FileId, s: State, turn: seq<Action>, status: Status)
      reads this
    {
      && Rooted(s) && Runs(s, turn) && Snapshot() == After(s, turn)
      && db.Keys == old(db).Keys && f in db && db[f].status == status && UpToDate(Snapshot(), f)
      && f in old(db) && db[f].supported == old(db)[f].supported
      && (forall g | g in db && g != f :: db[g] == old(db)[g])
      && (forall g | g != f :: ChunksOf(index, g) == ChunksOf(old(index), g))
    }

    // Reading, splitting and indexing one file that is marked `indexing`. Which of the calls of
    // the loader, the embedding model and the vector store raise is given.
    method Ingest(f: FileId, faults: Faults, ghost s: State) returns (ghost turn: seq<Action>)
      requires Rooted(Snapshot()) && f in db && db[f].status == Indexing
      requires s == Snapshot().(worker := Refreshed(f, db[f]))
      modifies this`db, this`index
      ensures TurnDone(f, s, turn, Outcome(s, f, faults))
    {
      if !db[f].supported || f !in store || store[f].Unreadable? || faults.loading {
        turn := MarkFailed(f, s, index);
        return;
      }
      var parts := store[f].parts;
      ghost var loaded := s.(worker := Loaded(f, db[f], parts));
      var documents := Enrich(f, parts);
      turn := ReplaceChunks(f, documents, faults, parts, loaded);
      turn := RunFrom(s, Load, loaded, turn);
    }

    method ReplaceChunks(f: FileId, documents: seq<Chunk>, faults: Faults, ghost parts: seq<string>, ghost s: State)
      returns (ghost turn: seq<Action>)
      requires Rooted(Snapshot()) && f in db && db[f].status == Indexing && db[f].supported
      requires s == Snapshot().(worker := Loaded(f, db[f], parts))
      requires documents == Enriched(f, parts) && Agrees(s, f, parts)
      modifies this`db, this`index
      ensures TurnDone(f, s, turn, if faults.deleting || faults.adding then Failed else Ready)
    {
      if faults.deleting {
        var left := HalfDone(f);
        turn := MarkFailed(f, s, left);
        return;
      }
      index := ChunksOfOthers(index, f);
      forall g
        ensures ChunksOf(index, g) == if g == f then [] else ChunksOf(old(index), g)
      {
        ChunksAfterDelete(old(index), f, g);
      }
      ghost var cleared := Snapshot().(worker := Cleared(f, db[f], parts));
      turn := AddAndFinish(f, documents, faults, parts, cleared);
      turn := RunFrom(s, DeleteChunks, cleared, turn);
    }

    method AddAndFinish(f: FileId, documents: seq<Chunk>, faults: Faults, ghost parts: seq<string>, ghost s: State)
      returns (ghost turn: seq<Action>)
      requires Rooted(Snapshot()) && f in db && db[f].status == Indexing && db[f].supported
      requires s == Snapshot().(worker := Cleared(f, db[f], parts))
      requires documents == Enriched(f, parts) && Agrees(s, f, parts) && ChunksOf(index, f) == []
      modifies this`db, this`index
      ensures TurnDone(f, s, turn, if faults.adding then Failed else Ready)
    {
      if faults.adding {
        var left := HalfDone(f);
        turn := MarkFailed(f, s, left);
        return;
      }
      ChunksAdded(index, f, parts);
      index := index + documents;
      db := db[f := db[f].(status := Ready, chunkCount := |documents|)];
      turn := ClearedToReady(s, f, parts, Snapshot());
    }

    // What an exception while chunks are deleted or added leaves: any of the file's chunks.
    method HalfDone(f: FileId) returns (left: seq<Chunk>)
      ensures ChunksOfOthers(left, f) == ChunksOfOthers(index, f)
    {
      left := *;
      if ChunksOfOthers(left, f) != ChunksOfOthers(index, f) {
        left := index;
      }
    }

    // The exception handler.
    method MarkFailed(f: FileId, ghost s: State, left: seq<Chunk>) returns (ghost turn: seq<Action>)
      requires Rooted(Snapshot()) && Rooted(s) && f in db && db[f].status == Indexing
      requires s == Snapshot().(worker := s.worker) && Enabled(s, Fail(left))
      requires s.worker.file == f && s.worker.row == db[f]
      modifies this`db, this`index
      ensures TurnDone(f, s, turn, Failed)
    {
      index := left;
      db := db[f := db[f].(status := Failed)];
      turn := RunFrom(s, Fail(left), Snapshot(), []);
      forall g | g != f
        ensures ChunksOf(index, g) == ChunksOf(old(index), g)
      {
        if left != old(index) {
          OthersLeft(left, old(index), f, g);
        }
      }
    }

    predicate Gone(f: FileId)
      reads this
    {
      f !in db || db[f].status == Deleted
    }

    // process_file_ingestion, with the worker where Pick leaves it.
    method ProcessFileIngestion(f: FileId, faults: Faults, ghost s: State) returns (ghost turn: seq<Action>)
      requires Rooted(Snapshot()) && s == Snapshot().(worker := if Gone(f) then Idle else Picked(f, db[f]))
      modifies this`db, this`index
      ensures old(Gone(f)) ==> turn == [] && db == old(db) && index == old(index)
      ensures !old(Gone(f)) ==> TurnDone(f, s, turn, Outcome(s, f, faults))
      ensures !old(Gone(f)) ==>
                (db[f].status == Ready <==> db[f].supported && f in store && store[f].Readable? && faults == Faults(false, false, false))
    {
      if Gone(f) {
        return [];
      }
      db := db[f := db[f].(status := Indexing)];
      ghost var refreshed := Snapshot().(worker := Refreshed(f, db[f]));
      turn := Ingest(f, faults, refreshed);
      turn := PickedToRefreshed(s, f, refreshed, turn);
    }

    // One round of the worker loop.
    method ProcessNext(faults: Faults) returns (ghost turn: seq<Action>)
      requires Rooted(Snapshot()) && queue != []
      modifies this`db, this`index, this`queue
      ensures Runs(old(Snapshot()), turn) && Snapshot() == After(old(Snapshot()), turn)
      ensures queue == old(queue)[1..] && RoundDone(old(Snapshot()), old(queue)[0], faults, Snapshot())
    {
      ghost var s := Snapshot();
      var f := queue[0];
      queue := queue[1..];
      ghost var picked := Snapshot().(worker := if Gone(f) then Idle else Picked(f, db[f]));
      turn := ProcessFileIngestion(f, faults, picked);
      turn := RunFrom(s, Pick, picked, turn);
    }

    // The worker loop until the queue is empty; faults(i) is what raises in round i.
    method Drain(faults: nat -> Faults) returns (ghost run: seq<Action>)
      requires Rooted(Snapshot())
      modifies this`db, this`index, this`queue
      ensures Runs(old(Snapshot()), run) && Snapshot() == After(old(Snapshot()), run)
      ensures queue == [] && DealtWith(old(Snapshot()), old(queue), faults, Snapshot())
    {
      ghost var s := Snapshot();
      run := [];
      var done := 0;
      while queue != []
        invariant Drained(s, run, done, faults, Snapshot())
        decreases |queue|
      {
        ghost var before := Snapshot();
        ghost var turn := ProcessNext(faults(done));
        DrainedOneMore(s, run, done, faults, before, turn, Snapshot());
        run, done := run + turn, done + 1;
      }
      assert s.queue[..done] == s.queue;
    }

    // start() after a restart, from whatever was persisted, and the worker's work on the backlog.
    // No file is pending then, each that was is up to date, and ready exactly if it can be read
    // and nothing raises in its round. A file that a crash left ready and out of date stays so:
    // nothing queues it again.
    method Restart(faults: nat -> Faults)
      requires Rooted(Snapshot()) && queue == []
      modifies this`db, this`index, this`queue
      ensures queue == [] && Restarted(old(Snapshot()), faults, Snapshot())
    {
      ghost var s := Snapshot();
      RecoverPendingFiles();
      assert Snapshot() == Requeued(s);
      ghost var run := Drain(faults);
      RestartDone(s, faults, Snapshot());
    }
  }
}

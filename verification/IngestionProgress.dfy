/** No file is forgotten: one that still has to be indexed is queued, about to be, or in the
    worker's hands. */
module IngestionProgress {
  import opened Options
  import opened Ingestion

  ghost predicate Expected(s: State, f: FileId) {
    f in s.queue || exists r | 0 <= r < |s.requests| :: s.requests[r].file == f && WillEnqueue(s.requests[r])
  }

  predicate InHand(s: State, f: FileId) {
    !s.worker.Idle? && s.worker.file == f
  }

  // The rows the worker holds differ from what it will write, so that its commits do write.
  predicate WorkerWrites(s: State)
    requires !s.worker.Idle? ==> s.worker.file in s.db
  {
    match s.worker
    case Idle => true
    case Picked(_, row) => row.status != Indexing
    case Marked(f) => Pending(s.db[f])
    case Refreshed(_, row) => Pending(row)
    case Loaded(_, row, _) => Pending(row)
    case Cleared(_, row, _) => Pending(row)
    case Indexed(_, row, _) => Pending(row)
  }

  ghost predicate FileNotForgotten(s: State, f: FileId) {
    f in s.db ==>
      && (s.db[f].status == Indexing ==> InHand(s, f))
      && (s.db[f].status == Uploaded ==> InHand(s, f) || Expected(s, f))
  }

  ghost predicate NoneForgotten(s: State)
    requires Rooted(s)
  {
    WorkerWrites(s) && forall f :: FileNotForgotten(s, f)
  }

  lemma WriterKept(s: State, a: Action)
    requires Rooted(s) && NoneForgotten(s) && Enabled(s, a)
    ensures Rooted(Do(s, a)) && WorkerWrites(Do(s, a))
  {
    RootedKept(s, a);
    if a.Pick? && s.queue[0] in s.db {
      assert FileNotForgotten(s, s.queue[0]);
    }
  }

  lemma ExpectedFrom(s: State, f: FileId, r: nat)
    requires r < |s.requests| && s.requests[r].file == f && WillEnqueue(s.requests[r])
    ensures Expected(s, f)
  {
  }

  lemma ExpectedKept(s: State, a: Action, f: FileId)
    requires Rooted(s) && Enabled(s, a) && Expected(s, f) && !a.Pick?
    ensures Expected(Do(s, a), f)
  {
    if f !in s.queue {
      var r :| 0 <= r < |s.requests| && s.requests[r].file == f && WillEnqueue(s.requests[r]);
      if !Ends(s, a, r) {
        var q := RequestStays(s, a, r);
        ExpectedFrom(Do(s, a), f, q);
      }
    }
  }

  lemma RequestRemembers(s: State, a: Action, f: FileId)
    requires Rooted(s) && NoneForgotten(s) && Enabled(s, a) && !OfWorker(a)
    ensures FileNotForgotten(Do(s, a), f)
  {
    assert FileNotForgotten(s, f);
    if (a.CommitUpload? || a.CommitRetry? || a.CommitSave?) && s.requests[a.r].file == f {
      if WillEnqueue(s.requests[a.r]) {
        ExpectedFrom(Do(s, a), f, a.r);
      } else if Expected(s, f) {
        ExpectedKept(s, a, f);
      }
    } else if Expected(s, f) {
      ExpectedKept(s, a, f);
    }
  }

  lemma WorkerRemembers(s: State, a: Action, f: FileId)
    requires Rooted(s) && NoneForgotten(s) && Enabled(s, a) && OfWorker(a)
    ensures FileNotForgotten(Do(s, a), f)
  {
    assert FileNotForgotten(s, f);
    if a.Pick? {
      assert s.queue == [s.queue[0]] + s.queue[1..];
      if Expected(s, f) && f !in s.queue {
        var r :| 0 <= r < |s.requests| && s.requests[r].file == f && WillEnqueue(s.requests[r]);
        ExpectedFrom(Do(s, a), f, r);
      }
    } else if Expected(s, f) {
      ExpectedKept(s, a, f);
    }
  }

  lemma {:induction false} RunRemembers(s: State, actions: seq<Action>)
    requires Rooted(s) && NoneForgotten(s) && Runs(s, actions)
    ensures NoneForgotten(After(s, actions))
    decreases |actions|
  {
    if actions != [] {
      WriterKept(s, actions[0]);
      forall f
        ensures FileNotForgotten(Do(s, actions[0]), f)
      {
        if OfWorker(actions[0]) {
          WorkerRemembers(s, actions[0], f);
        } else {
          RequestRemembers(s, actions[0], f);
        }
      }
      RunRemembers(Do(s, actions[0]), actions[1..]);
    }
  }

  // Some step of the run is an exception while f is reindexed.
  ghost predicate Raises(s: State, actions: seq<Action>, f: FileId)
    requires Rooted(s) && Runs(s, actions)
    decreases |actions|
  {
    actions != [] &&
    (FailsOn(s, actions[0], f) || (RootedKept(s, actions[0]); Raises(Do(s, actions[0]), actions[1..], f)))
  }

  predicate FailsOn(s: State, a: Action, f: FileId) {
    a.Fail? && !s.worker.Idle? && s.worker.file == f
  }

  predicate HasFailed(s: State, f: FileId) {
    f in s.db && s.db[f].status == Failed
  }

  lemma FailsByRaising(s: State, a: Action, f: FileId)
    requires Rooted(s) && Enabled(s, a) && HasFailed(Do(s, a), f)
    ensures HasFailed(s, f) || FailsOn(s, a, f)
  {
  }

  lemma {:induction false} FailedRaised(s: State, actions: seq<Action>, f: FileId)
    requires Rooted(s) && Runs(s, actions) && HasFailed(After(s, actions), f)
    ensures HasFailed(s, f) || Raises(s, actions, f)
    decreases |actions|
  {
    if actions != [] {
      RootedKept(s, actions[0]);
      FailedRaised(Do(s, actions[0]), actions[1..], f);
      if HasFailed(Do(s, actions[0]), f) {
        FailsByRaising(s, actions[0], f);
      }
    }
  }

  // However requests and worker steps interleave: when the system comes to rest, every file that
  // is not deleted is ready and up to date, or failed because reindexing it raised an exception.
  lemma RestIsDone(actions: seq<Action>, s: State)
    requires Runs(Empty(), actions) && s == After(Empty(), actions) && Quiescent(s)
    ensures forall f | f in s.db && s.db[f].status != Deleted ::
              (s.db[f].status == Ready && UpToDate(s, f)) || (s.db[f].status == Failed && Raises(Empty(), actions, f))
  {
    RunRemembers(Empty(), actions);
    QuiescentIsUpToDate(Empty(), actions);
    forall f | f in s.db && s.db[f].status != Deleted
      ensures s.db[f].status == Ready || (s.db[f].status == Failed && Raises(Empty(), actions, f))
    {
      assert FileNotForgotten(s, f);
      if HasFailed(s, f) {
        FailedRaised(Empty(), actions, f);
      }
    }
  }

  // ----- What was uploaded stays what it is

  // Whatever is known of f's extension says `supported`.
  ghost predicate Knows(s: State, f: FileId, supported: bool) {
    && (f in s.db ==> s.db[f].supported == supported)
    && (forall r | 0 <= r < |s.requests| && s.requests[r].file == f && s.requests[r].Uploading? ::
          s.requests[r].supported == supported)
  }

  lemma StartUploadKnows(s: State, content: Content, ext: bool)
    requires Rooted(s)
    ensures Knows(Do(s, StartUpload(content, ext)), s.nextId, ext)
  {
  }

  lemma StepKnows(s: State, a: Action, f: FileId, supported: bool)
    requires Rooted(s) && Enabled(s, a) && f < s.nextId && Knows(s, f, supported)
    ensures f < Do(s, a).nextId && Knows(Do(s, a), f, supported)
  {
    if OfWorker(a) {
      WorkerKnowsStill(s, a, f, supported);
    } else if a.Enqueue? || a.CommitSave? {
      EndingKnows(s, a, f, supported);
    } else {
      RequestKnows(s, a, f, supported);
    }
  }

  lemma WorkerKnowsStill(s: State, a: Action, f: FileId, supported: bool)
    requires Rooted(s) && Enabled(s, a) && OfWorker(a) && Knows(s, f, supported)
    ensures WorkerStep(s, a).nextId == s.nextId && Knows(WorkerStep(s, a), f, supported)
  {
  }

  lemma EndingKnows(s: State, a: Action, f: FileId, supported: bool)
    requires Rooted(s) && Enabled(s, a) && (a.Enqueue? || a.CommitSave?) && Knows(s, f, supported)
    ensures RequestStep(s, a).nextId == s.nextId && Knows(RequestStep(s, a), f, supported)
  {
    WithoutFrom(s.requests, a.r);
  }

  lemma RequestKnows(s: State, a: Action, f: FileId, supported: bool)
    requires Rooted(s) && Enabled(s, a) && !OfWorker(a) && !a.Enqueue? && !a.CommitSave?
    requires f < s.nextId && Knows(s, f, supported)
    ensures f < RequestStep(s, a).nextId && Knows(RequestStep(s, a), f, supported)
  {
  }

  lemma {:induction false} RunKnows(s: State, actions: seq<Action>, f: FileId, supported: bool)
    requires Rooted(s) && Runs(s, actions) && f < s.nextId && Knows(s, f, supported)
    ensures Knows(After(s, actions), f, supported)
    decreases |actions|
  {
    if actions != [] {
      RootedKept(s, actions[0]);
      StepKnows(s, actions[0], f, supported);
      RunKnows(Do(s, actions[0]), actions[1..], f, supported);
    }
  }

  // A file that was uploaded with an unsupported extension is never ready.
  lemma UnsupportedNeverReady(s: State, content: Content, actions: seq<Action>)
    requires Inv(s) && Runs(s, [StartUpload(content, false)] + actions)
    ensures var t := After(s, [StartUpload(content, false)] + actions); s.nextId in t.db ==> t.db[s.nextId].status != Ready
  {
    var start, run := StartUpload(content, false), [StartUpload(content, false)] + actions;
    assert run[0] == start && run[1..] == actions;
    StartUploadKnows(s, content, false);
    RootedKept(s, start);
    RunKnows(Do(s, start), actions, s.nextId, false);
    RunKeeps(s, run);
  }

  // ----- Deleted files and stored contents

  // f is deleted, and no request or reindexing is on its way.
  ghost predicate Gone(s: State, f: FileId) {
    && f in s.db && s.db[f].status == Deleted && !InHand(s, f)
    && forall r | 0 <= r < |s.requests| :: s.requests[r].file != f
  }

  lemma StepLeavesGone(s: State, a: Action, f: FileId)
    requires Rooted(s) && Enabled(s, a) && Gone(s, f)
    ensures Gone(Do(s, a), f) && Do(s, a).db[f] == s.db[f]
  {
    if OfWorker(a) {
      WorkerLeavesGone(s, a, f);
    } else if a.Enqueue? || a.CommitSave? {
      EndingLeavesGone(s, a, f);
    } else {
      RequestLeavesGone(s, a, f);
    }
  }

  lemma WorkerLeavesGone(s: State, a: Action, f: FileId)
    requires Rooted(s) && Enabled(s, a) && OfWorker(a) && Gone(s, f)
    ensures Gone(WorkerStep(s, a), f) && WorkerStep(s, a).db[f] == s.db[f]
  {
  }

  lemma EndingLeavesGone(s: State, a: Action, f: FileId)
    requires Rooted(s) && Enabled(s, a) && (a.Enqueue? || a.CommitSave?) && Gone(s, f)
    ensures Gone(RequestStep(s, a), f) && RequestStep(s, a).db[f] == s.db[f]
  {
    WithoutFrom(s.requests, a.r);
  }

  lemma RequestLeavesGone(s: State, a: Action, f: FileId)
    requires Rooted(s) && Enabled(s, a) && !OfWorker(a) && !a.Enqueue? && !a.CommitSave? && Gone(s, f)
    ensures Gone(RequestStep(s, a), f) && RequestStep(s, a).db[f] == s.db[f]
  {
  }

  // A deleted file stays deleted; it can be in the queue, but it is not picked.
  lemma {:induction false} DeletedStays(s: State, actions: seq<Action>, f: FileId)
    requires Rooted(s) && Runs(s, actions) && Gone(s, f)
    ensures Gone(After(s, actions), f) && After(s, actions).db[f] == s.db[f]
    decreases |actions|
  {
    if actions != [] {
      RootedKept(s, actions[0]);
      StepLeavesGone(s, actions[0], f);
      DeletedStays(Do(s, actions[0]), actions[1..], f);
    }
  }

  // The content that a step stores for f.
  function Stores(s: State, a: Action, f: FileId): Option<Content> {
    match a
    case StartUpload(content, _) => if f == s.nextId then Some(content) else None
    case StoreSave(r, content) => if r < |s.requests| && s.requests[r].file == f then Some(content) else None
    case _ => None
  }

  // In every run f's content is the one stored last.
  ghost function LastStored(s: State, actions: seq<Action>, f: FileId): Option<Content>
    requires Rooted(s) && Runs(s, actions)
    decreases |actions|
  {
    if actions == [] then None
    else
      RootedKept(s, actions[0]);
      var later := LastStored(Do(s, actions[0]), actions[1..], f);
      if later.Some? then later else Stores(s, actions[0], f)
  }

  lemma {:induction false} StoreIsLastStored(s: State, actions: seq<Action>, f: FileId)
    requires Rooted(s) && Runs(s, actions)
    ensures var last, t := LastStored(s, actions, f), After(s, actions);
            match last
            case Some(content) => f in t.store && t.store[f] == content
            case None => (f in t.store <==> f in s.store) && (f in s.store ==> t.store[f] == s.store[f])
    decreases |actions|
  {
    if actions != [] {
      RootedKept(s, actions[0]);
      StoreIsLastStored(Do(s, actions[0]), actions[1..], f);
    }
  }

  // A retry or a save that nobody interferes with makes the file pending again; a save forgets
  // its chunks.
  lemma UncontestedCommits(s: State, r: nat)
    requires Rooted(s) && r < |s.requests| && (s.requests[r].Retrying? || s.requests[r].Saved?)
    requires s.db[s.requests[r].file] == s.requests[r].row && s.requests[r].row.supported
    ensures s.requests[r].Retrying? ==>
              Do(s, CommitRetry(r)).db[s.requests[r].file] == s.requests[r].row.(status := Uploaded)
    ensures s.requests[r].Saved? ==> Do(s, CommitSave(r)).db[s.requests[r].file] == Row(Uploaded, 0, true)
  {
  }

  // ----- The queue is first in, first out

  function Picks(actions: seq<Action>): nat {
    if actions == [] then 0 else (if actions[0].Pick? then 1 else 0) + Picks(actions[1..])
  }

  // What is i-th in the queue is taken by the i-th pick from now, and not before.
  lemma {:induction false} PickedInTurn(s: State, actions: seq<Action>, i: nat)
    requires Rooted(s) && Runs(s, actions) && Picks(actions) <= i < |s.queue|
    ensures i - Picks(actions) < |After(s, actions).queue| && After(s, actions).queue[i - Picks(actions)] == s.queue[i]
    decreases |actions|
  {
    if actions != [] {
      RootedKept(s, actions[0]);
      StepKeepsTurn(s, actions[0]);
      PickedInTurn(Do(s, actions[0]), actions[1..], if actions[0].Pick? then i - 1 else i);
    }
  }

  lemma StepKeepsTurn(s: State, a: Action)
    requires Rooted(s) && Enabled(s, a)
    ensures if a.Pick? then s.queue != [] && Do(s, a).queue == s.queue[1..] else s.queue <= Do(s, a).queue
  {
  }

  // ----- Commits of columns that do not overlap

  // Of two sessions that loaded the same row, each keeps what the other committed in the other
  // column, in either order.
  lemma CommitsMerge(row: Row, status: Status, chunkCount: nat)
    ensures var a, b := row.(status := status), row.(chunkCount := chunkCount);
            && Committed(Committed(row, row, a), row, b) == row.(status := status, chunkCount := chunkCount)
            && Committed(Committed(row, row, b), row, a) == row.(status := status, chunkCount := chunkCount)
  {
  }
}

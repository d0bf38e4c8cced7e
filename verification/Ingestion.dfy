/** Knowledge-file ingestion: one worker reindexes files taken from a queue while API requests
    upload files, retry them and replace their content. Every `Action` is what one coroutine does
    between two points where it can be suspended. */
module Ingestion {
  import opened Options
  import opened Sequences

  type FileId = nat

  datatype Status = Uploaded | Indexing | Ready | Failed | Deleted

  // The columns of a knowledge_files row that the protocol writes, and whether the extension is
  // one that can be ingested.
  datatype Row = Row(status: Status, chunkCount: nat, supported: bool)

  // Stored bytes, as far as the loader can tell: what it splits them into, or an exception.
  datatype Content = Readable(parts: seq<string>) | Unreadable

  datatype Chunk = Chunk(file: FileId, index: nat, text: string)

  // Where the worker is suspended. `row` is the row as the worker's session last loaded it.
  datatype Worker =
    | Idle
    | Picked(file: FileId, row: Row)
    | Marked(file: FileId)
    | Refreshed(file: FileId, row: Row)
    | Loaded(file: FileId, row: Row, parts: seq<string>)
    | Cleared(file: FileId, row: Row, parts: seq<string>)
    | Indexed(file: FileId, row: Row, parts: seq<string>)

  // Where a request is suspended.
  datatype Request =
    | Uploading(file: FileId, supported: bool)   // content stored, row not committed
    | Retrying(file: FileId, row: Row)           // row loaded
    | Saving(file: FileId, row: Row)             // row loaded, new content not yet stored
    | Saved(file: FileId, row: Row)              // new content stored, row not yet committed
    | Enqueueing(file: FileId)                   // row committed, file not yet in the queue

  datatype State = State(
    db: map<FileId, Row>,
    nextId: FileId,
    store: map<FileId, Content>,
    index: seq<Chunk>,
    queue: seq<FileId>,
    worker: Worker,
    requests: seq<Request>)

  datatype Action =
    // requests
    | StartUpload(content: Content, ext: bool)
    | CommitUpload(r: nat)
    | UploadAgain(file: FileId)
    | StartRetry(file: FileId)
    | CommitRetry(r: nat)
    | StartSave(file: FileId)
    | StoreSave(r: nat, content: Content)
    | CommitSave(r: nat)
    | Enqueue(r: nat)
    // the worker
    | Pick
    | MarkIndexing
    | Refresh
    | Load
    | DeleteChunks
    | AddChunks
    | MarkReady
    | Fail(left: seq<Chunk>)   // what is left in the index

  // Still to be indexed.
  predicate Pending(row: Row) {
    row.status == Uploaded || row.status == Indexing
  }

  // A commit writes the columns that differ from what the session loaded, and no others.
  function Committed(current: Row, loaded: Row, wanted: Row): Row {
    Row(if wanted.status != loaded.status then wanted.status else current.status,
        if wanted.chunkCount != loaded.chunkCount then wanted.chunkCount else current.chunkCount,
        current.supported)
  }

  function Without(rs: seq<Request>, r: nat): seq<Request>
    requires r < |rs|
  {
    rs[..r] + rs[r + 1..]
  }

  function ChunksOf(index: seq<Chunk>, f: FileId): seq<Chunk> {
    if index == [] then []
    else (if index[0].file == f then [index[0]] else []) + ChunksOf(index[1..], f)
  }

  function ChunksOfOthers(index: seq<Chunk>, f: FileId): seq<Chunk> {
    if index == [] then []
    else (if index[0].file == f then [] else [index[0]]) + ChunksOfOthers(index[1..], f)
  }

  // The documents of a file, numbered from 0 on.
  function Enriched(f: FileId, parts: seq<string>): seq<Chunk> {
    seq(|parts|, i requires 0 <= i < |parts| => Chunk(f, i, parts[i]))
  }

  predicate Enabled(s: State, a: Action) {
    match a
    case StartUpload(_, _) => true
    case CommitUpload(r) => r < |s.requests| && s.requests[r].Uploading?
    // an upload of known content returns the existing row, and enqueues it if it is `uploaded`
    case UploadAgain(f) => f in s.db && s.db[f].status == Uploaded
    case StartRetry(f) => f in s.db && s.db[f].status != Deleted
    case CommitRetry(r) => r < |s.requests| && s.requests[r].Retrying?
    case StartSave(f) => f in s.db && s.db[f].status != Deleted
    case StoreSave(r, _) => r < |s.requests| && s.requests[r].Saving?
    case CommitSave(r) => r < |s.requests| && s.requests[r].Saved?
    case Enqueue(r) => r < |s.requests| && s.requests[r].Enqueueing?
    case Pick => s.worker.Idle? && s.queue != []
    case MarkIndexing => s.worker.Picked?
    case Refresh => s.worker.Marked?
    case Load =>
      s.worker.Refreshed? && s.worker.row.supported && s.worker.file in s.store && s.store[s.worker.file].Readable?
    case DeleteChunks => s.worker.Loaded?
    case AddChunks => s.worker.Cleared?
    case MarkReady => s.worker.Indexed?
    // any step of the ingestion can raise; deleting and adding can raise half way, and which of
    // the file's chunks are there then is left open
    case Fail(left) =>
      match s.worker
      case Refreshed(_, _) => left == s.index
      case Loaded(f, _, _) => ChunksOfOthers(left, f) == ChunksOfOthers(s.index, f)
      case Cleared(f, _, _) => ChunksOfOthers(left, f) == ChunksOfOthers(s.index, f)
      case Indexed(_, _, _) => left == s.index
      case _ => false
  }

  // The file of an action that needs its row; rows are never removed.
  ghost predicate Rooted(s: State) {
    && (forall f | f in s.db :: f < s.nextId)
    && (forall r | 0 <= r < |s.requests| ::
          if s.requests[r].Uploading? then s.requests[r].file !in s.db && s.requests[r].file < s.nextId
          else s.requests[r].file in s.db)
    && (forall r, t | 0 <= r < t < |s.requests| && s.requests[r].Uploading? && s.requests[t].Uploading? ::
          s.requests[r].file != s.requests[t].file)
    && (!s.worker.Idle? ==> s.worker.file in s.db)
  }

  predicate OfWorker(a: Action) {
    a.Pick? || a.MarkIndexing? || a.Refresh? || a.Load? || a.DeleteChunks? || a.AddChunks? || a.MarkReady? || a.Fail?
  }

  function RequestStep(s: State, a: Action): State
    requires Rooted(s) && Enabled(s, a) && !OfWorker(a)
  {
    match a
    case StartUpload(content, ext) =>
      s.(nextId := s.nextId + 1, store := s.store[s.nextId := content],
         requests := s.requests + [Uploading(s.nextId, ext)])
    case CommitUpload(r) =>
      var q := s.requests[r];
      s.(db := s.db[q.file := Row(Uploaded, 0, q.supported)], requests := s.requests[r := Enqueueing(q.file)])
    case UploadAgain(f) => s.(requests := s.requests + [Enqueueing(f)])
    case StartRetry(f) => s.(requests := s.requests + [Retrying(f, s.db[f])])
    case CommitRetry(r) =>
      var q := s.requests[r];
      s.(db := s.db[q.file := Committed(s.db[q.file], q.row, q.row.(status := Uploaded))],
         requests := s.requests[r := Enqueueing(q.file)])
    case StartSave(f) => s.(requests := s.requests + [Saving(f, s.db[f])])
    case StoreSave(r, content) =>
      var q := s.requests[r];
      s.(store := s.store[q.file := content], requests := s.requests[r := Saved(q.file, q.row)])
    case CommitSave(r) =>
      var q := s.requests[r];
      if q.row.supported then
        s.(db := s.db[q.file := Committed(s.db[q.file], q.row, q.row.(status := Uploaded, chunkCount := 0))],
           requests := s.requests[r := Enqueueing(q.file)])
      else s.(requests := Without(s.requests, r))
    case Enqueue(r) => s.(queue := s.queue + [s.requests[r].file], requests := Without(s.requests, r))
  }

  function WorkerStep(s: State, a: Action): State
    requires Rooted(s) && Enabled(s, a) && OfWorker(a)
  {
    match a
    case Pick =>
      var f := s.queue[0];
      s.(queue := s.queue[1..],
         worker := if f !in s.db || s.db[f].status == Deleted then Idle else Picked(f, s.db[f]))
    case MarkIndexing =>
      var w := s.worker;
      s.(db := s.db[w.file := Committed(s.db[w.file], w.row, w.row.(status := Indexing))], worker := Marked(w.file))
    case Refresh => s.(worker := Refreshed(s.worker.file, s.db[s.worker.file]))
    case Load => s.(worker := Loaded(s.worker.file, s.worker.row, s.store[s.worker.file].parts))
    case DeleteChunks =>
      s.(index := ChunksOfOthers(s.index, s.worker.file),
         worker := Cleared(s.worker.file, s.worker.row, s.worker.parts))
    case AddChunks =>
      s.(index := s.index + Enriched(s.worker.file, s.worker.parts),
         worker := Indexed(s.worker.file, s.worker.row, s.worker.parts))
    case MarkReady =>
      var w := s.worker;
      s.(db := s.db[w.file := Committed(s.db[w.file], w.row, w.row.(status := Ready, chunkCount := |w.parts|))],
         worker := Idle)
    case Fail(left) =>
      var w := s.worker;
      s.(db := s.db[w.file := Committed(s.db[w.file], w.row, w.row.(status := Failed))],
         index := left, worker := Idle)
  }

  function Do(s: State, a: Action): State
    requires Rooted(s) && Enabled(s, a)
  {
    if OfWorker(a) then WorkerStep(s, a) else RequestStep(s, a)
  }

  // ----- The index agrees with a file's content

  ghost predicate Agrees(s: State, f: FileId, parts: seq<string>) {
    f in s.store && s.store[f] == Readable(parts)
  }

  ghost predicate UpToDate(s: State, f: FileId) {
    f in s.db && s.db[f].status == Ready ==>
      && f in s.store && s.store[f].Readable?
      && ChunksOf(s.index, f) == Enriched(f, s.store[f].parts)
      && s.db[f].chunkCount == |s.store[f].parts|
  }

  // A later reindexing of f is still due.
  ghost predicate Due(s: State, f: FileId) {
    f in s.queue || exists r | 0 <= r < |s.requests| :: s.requests[r].file == f
  }

  // What the worker relies on while it reindexes f, unless f is due again anyway.
  ghost predicate OnTrack(s: State, w: Worker)
    requires !w.Idle? && w.file in s.db
  {
    match w
    case Picked(_, _) => true
    case Marked(_) => true
    case Refreshed(f, row) => row == s.db[f]
    case Loaded(f, row, parts) => row == s.db[f] && Agrees(s, f, parts)
    case Cleared(f, row, parts) => row == s.db[f] && Agrees(s, f, parts) && ChunksOf(s.index, f) == []
    case Indexed(f, row, parts) => row == s.db[f] && Agrees(s, f, parts) && ChunksOf(s.index, f) == Enriched(f, parts)
  }

  // The part of the invariant that is about one file.
  ghost predicate FileInv(s: State, f: FileId)
    requires Rooted(s)
  {
    f in s.db && s.db[f].supported && !Due(s, f) ==>
      if !s.worker.Idle? && s.worker.file == f then OnTrack(s, s.worker) else UpToDate(s, f)
  }

  // What loaded rows say about extensions is still true, and no other file is ready.
  ghost predicate ExtensionsKnown(s: State)
    requires Rooted(s)
  {
    OnlySupportedReady(s) && RequestsKnow(s) && WorkerKnows(s)
  }

  ghost predicate OnlySupportedReady(s: State) {
    forall f | f in s.db && s.db[f].status == Ready :: s.db[f].supported
  }

  ghost predicate RequestsKnow(s: State)
    requires Rooted(s)
  {
    forall r | 0 <= r < |s.requests| && (s.requests[r].Retrying? || s.requests[r].Saving? || s.requests[r].Saved?) ::
      s.requests[r].row.supported == s.db[s.requests[r].file].supported
  }

  predicate WorkerKnows(s: State)
    requires !s.worker.Idle? ==> s.worker.file in s.db
  {
    match s.worker
    case Idle => true
    case Marked(_) => true
    case Picked(f, row) => row.supported == s.db[f].supported
    case Refreshed(f, row) => row.supported == s.db[f].supported
    case Loaded(f, row, _) => row.supported && s.db[f].supported
    case Cleared(f, row, _) => row.supported && s.db[f].supported
    case Indexed(f, row, _) => row.supported && s.db[f].supported
  }

  ghost predicate Inv(s: State) {
    Rooted(s) && ExtensionsKnown(s) && forall f :: FileInv(s, f)
  }

  // No queued file, no request in flight, no reindexing under way.
  predicate Quiescent(s: State) {
    s.queue == [] && s.worker.Idle? && s.requests == []
  }

  // ----- Lemmas about the index

  lemma {:induction false} ChunksAppend(x: seq<Chunk>, y: seq<Chunk>, f: FileId)
    ensures ChunksOf(x + y, f) == ChunksOf(x, f) + ChunksOf(y, f)
  {
    if x == [] {
      assert x + y == y;
    } else {
      ChunksAppend(x[1..], y, f);
      assert (x + y)[1..] == x[1..] + y;
      var own := if x[0].file == f then [x[0]] else [];
      assert own + (ChunksOf(x[1..], f) + ChunksOf(y, f)) == own + ChunksOf(x[1..], f) + ChunksOf(y, f);
    }
  }

  lemma {:induction false} ChunksOfFile(x: seq<Chunk>, f: FileId, g: FileId)
    requires forall i | 0 <= i < |x| :: x[i].file == f
    ensures ChunksOf(x, g) == if f == g then x else []
  {
    if x != [] {
      ChunksOfFile(x[1..], f, g);
    }
  }

  lemma {:induction false} ChunksAfterDelete(x: seq<Chunk>, f: FileId, g: FileId)
    ensures ChunksOf(ChunksOfOthers(x, f), g) == if f == g then [] else ChunksOf(x, g)
  {
    if x != [] {
      ChunksAfterDelete(x[1..], f, g);
      var kept := if x[0].file == f then [] else [x[0]];
      ChunksAppend(kept, ChunksOfOthers(x[1..], f), g);
      assert kept != [] ==> ChunksOf(kept, g) == (if x[0].file == g then kept else []) + ChunksOf(kept[1..], g);
    }
  }

  lemma OthersLeft(x: seq<Chunk>, y: seq<Chunk>, f: FileId, g: FileId)
    requires ChunksOfOthers(x, f) == ChunksOfOthers(y, f) && f != g
    ensures ChunksOf(x, g) == ChunksOf(y, g)
  {
    ChunksAfterDelete(x, f, g);
    ChunksAfterDelete(y, f, g);
  }

  // ----- Every step keeps the invariant

  lemma WithoutFrom(rs: seq<Request>, r: nat)
    requires r < |rs|
    ensures forall i | 0 <= i < |rs| - 1 :: Without(rs, r)[i] == rs[if i < r then i else i + 1]
  {
  }

  lemma RootedKept(s: State, a: Action)
    requires Rooted(s) && Enabled(s, a)
    ensures Rooted(Do(s, a))
  {
    if a.Enqueue? || (a.CommitSave? && !s.requests[a.r].row.supported) {
      RootedWithout(s, a.r);
    } else if a.CommitUpload? || a.CommitRetry? || a.StoreSave? || a.CommitSave? {
      RootedOngoing(s, a);
    } else if !OfWorker(a) {
      RootedStarts(s, a);
    }
  }

  lemma RootedStarts(s: State, a: Action)
    requires Rooted(s) && Enabled(s, a) && (a.StartUpload? || a.UploadAgain? || a.StartRetry? || a.StartSave?)
    ensures Rooted(RequestStep(s, a))
  {
    var t := RequestStep(s, a);
    assert t.requests == s.requests + [t.requests[|s.requests|]] && t.db == s.db;
  }

  lemma RootedWithout(s: State, r: nat)
    requires Rooted(s) && r < |s.requests|
    ensures Rooted(s.(requests := Without(s.requests, r)))
  {
    WithoutFrom(s.requests, r);
  }

  lemma RootedOngoing(s: State, a: Action)
    requires Rooted(s) && Enabled(s, a) && (a.CommitUpload? || a.CommitRetry? || a.StoreSave? || a.CommitSave?)
    requires a.CommitSave? ==> s.requests[a.r].row.supported
    ensures Rooted(Do(s, a))
  {
    var t, f := Do(s, a), s.requests[a.r].file;
    assert t.requests == s.requests[a.r := t.requests[a.r]];
    assert t.db.Keys == s.db.Keys + {f} || t.db.Keys == s.db.Keys;
    assert !t.requests[a.r].Uploading? && t.requests[a.r].file == f;
  }

  // A row says for good whether its file can be ingested.
  lemma SupportedKept(s: State, a: Action)
    requires Rooted(s) && Enabled(s, a)
    ensures forall f | f in s.db :: f in Do(s, a).db && Do(s, a).db[f].supported == s.db[f].supported
  {
  }

  lemma ReadyKept(s: State, a: Action)
    requires Rooted(s) && ExtensionsKnown(s) && Enabled(s, a)
    ensures OnlySupportedReady(Do(s, a))
  {
  }

  lemma RequestsKnowKept(s: State, a: Action)
    requires Rooted(s) && ExtensionsKnown(s) && Enabled(s, a) && Rooted(Do(s, a))
    ensures RequestsKnow(Do(s, a))
  {
    SupportedKept(s, a);
    if OfWorker(a) {
      assert Do(s, a).requests == s.requests;
    } else if a.Enqueue? || (a.CommitSave? && !s.requests[a.r].row.supported) {
      RequestsKnowWithout(s, a.r);
    } else {
      RequestsKnowOngoing(s, a);
    }
  }

  lemma RequestsKnowOngoing(s: State, a: Action)
    requires Rooted(s) && RequestsKnow(s) && Enabled(s, a) && !OfWorker(a) && Rooted(RequestStep(s, a))
    requires !a.Enqueue? && !(a.CommitSave? && !s.requests[a.r].row.supported)
    requires forall f | f in s.db :: f in RequestStep(s, a).db && RequestStep(s, a).db[f].supported == s.db[f].supported
    ensures RequestsKnow(RequestStep(s, a))
  {
    var t := RequestStep(s, a);
    forall r | 0 <= r < |t.requests| && (t.requests[r].Retrying? || t.requests[r].Saving? || t.requests[r].Saved?)
      ensures t.requests[r].row.supported == t.db[t.requests[r].file].supported
    {
      assert r < |s.requests| ==> t.requests[r] == s.requests[r] || a.StoreSave?;
    }
  }

  lemma RequestsKnowWithout(s: State, r: nat)
    requires Rooted(s) && RequestsKnow(s) && r < |s.requests|
    ensures Rooted(s.(requests := Without(s.requests, r))) && RequestsKnow(s.(requests := Without(s.requests, r)))
  {
    RootedWithout(s, r);
    WithoutFrom(s.requests, r);
  }

  lemma ExtensionsKept(s: State, a: Action)
    requires Rooted(s) && ExtensionsKnown(s) && Enabled(s, a)
    ensures Rooted(Do(s, a)) && ExtensionsKnown(Do(s, a))
  {
    RootedKept(s, a);
    SupportedKept(s, a);
    ReadyKept(s, a);
    RequestsKnowKept(s, a);
  }

  lemma DueFrom(s: State, f: FileId, r: nat)
    requires r < |s.requests| && s.requests[r].file == f
    ensures Due(s, f)
  {
  }

  // A save of a file that cannot be ingested is the one request that enqueues nothing.
  predicate WillEnqueue(q: Request) {
    (q.Saving? || q.Saved?) ==> q.row.supported
  }

  // The step that ends request r.
  predicate Ends(s: State, a: Action, r: nat)
    requires r < |s.requests|
  {
    (a.Enqueue? && a.r == r) || (a.CommitSave? && a.r == r && !WillEnqueue(s.requests[r]))
  }

  lemma StaysWithout(rs: seq<Request>, r: nat, gone: nat) returns (q: nat)
    requires r < |rs| && gone < |rs| && r != gone
    ensures q < |Without(rs, gone)| && Without(rs, gone)[q] == rs[r]
  {
    WithoutFrom(rs, gone);
    q := if r < gone then r else r - 1;
  }

  lemma RequestStays(s: State, a: Action, r: nat) returns (q: nat)
    requires Rooted(s) && Enabled(s, a) && r < |s.requests| && !Ends(s, a, r)
    ensures q < |Do(s, a).requests| && Do(s, a).requests[q].file == s.requests[r].file
    ensures WillEnqueue(s.requests[r]) ==> WillEnqueue(Do(s, a).requests[q])
  {
    q := r;
    if a.Enqueue? || a.CommitSave? {
      q := StaysPast(s, a, r);
    }
  }

  lemma StaysPast(s: State, a: Action, r: nat) returns (q: nat)
    requires Rooted(s) && Enabled(s, a) && (a.Enqueue? || a.CommitSave?) && r < |s.requests| && !Ends(s, a, r)
    ensures var t := RequestStep(s, a);
            && q < |t.requests| && t.requests[q].file == s.requests[r].file
            && (WillEnqueue(s.requests[r]) ==> WillEnqueue(t.requests[q]))
  {
    if a.CommitSave? && s.requests[a.r].row.supported {
      q := r;
    } else {
      q := StaysWithout(s.requests, r, a.r);
    }
  }

  // A reindexing that is due stays due until the worker picks it, or the request turns out to be
  // for a file that cannot be ingested.
  lemma DueKept(s: State, a: Action, f: FileId)
    requires Rooted(s) && Enabled(s, a) && Due(s, f)
    requires !a.Pick? && !(a.CommitSave? && s.requests[a.r].file == f && !s.requests[a.r].row.supported)
    ensures Due(Do(s, a), f)
  {
    if f !in s.queue {
      var r :| 0 <= r < |s.requests| && s.requests[r].file == f;
      if !Ends(s, a, r) {
        var q := RequestStays(s, a, r);
        DueFrom(Do(s, a), f, q);
      }
    }
  }

  // The file whose row or content a request's step writes.
  function Touches(s: State, a: Action): Option<FileId>
    requires Enabled(s, a)
  {
    match a
    case StartUpload(_, _) => Some(s.nextId)
    case CommitUpload(r) => Some(s.requests[r].file)
    case CommitRetry(r) => Some(s.requests[r].file)
    case StoreSave(r, _) => Some(s.requests[r].file)
    case CommitSave(r) => if s.requests[r].row.supported then Some(s.requests[r].file) else None
    case _ => None
  }

  lemma TouchedIsDue(s: State, a: Action)
    requires Rooted(s) && Enabled(s, a) && Touches(s, a).Some?
    ensures Due(Do(s, a), Touches(s, a).value)
  {
    DueFrom(Do(s, a), Touches(s, a).value, if a.StartUpload? then |s.requests| else a.r);
  }

  lemma RequestKeeps(s: State, a: Action, f: FileId)
    requires Rooted(s) && ExtensionsKnown(s) && Enabled(s, a) && !OfWorker(a) && FileInv(s, f)
    ensures Rooted(Do(s, a)) && FileInv(Do(s, a), f)
  {
    RootedKept(s, a);
    var t := Do(s, a);
    if Touches(s, a) == Some(f) {
      TouchedIsDue(s, a);
    } else if Due(s, f) {
      if a.CommitSave? && s.requests[a.r].file == f && !s.requests[a.r].row.supported {
        assert !s.db[f].supported;
      } else {
        DueKept(s, a, f);
      }
    }
  }

  lemma PickKeeps(s: State, f: FileId)
    requires Rooted(s) && Enabled(s, Pick) && FileInv(s, f)
    ensures Rooted(Do(s, Pick)) && FileInv(Do(s, Pick), f)
  {
    RootedKept(s, Pick);
    assert s.queue == [s.queue[0]] + s.queue[1..];
    if Due(s, f) && f !in s.queue {
      var r :| 0 <= r < |s.requests| && s.requests[r].file == f;
      DueFrom(Do(s, Pick), f, r);
    }
  }

  lemma WorkerKeeps(s: State, a: Action, f: FileId)
    requires Rooted(s) && ExtensionsKnown(s) && Enabled(s, a) && OfWorker(a) && !a.Pick? && FileInv(s, f)
    ensures Rooted(Do(s, a)) && FileInv(Do(s, a), f)
  {
    RootedKept(s, a);
    if Due(s, f) {
      DueKept(s, a, f);
    } else {
      match a
      case DeleteChunks =>
        ChunksAfterDelete(s.index, s.worker.file, f);
      case AddChunks =>
        ChunksAppend(s.index, Enriched(s.worker.file, s.worker.parts), f);
        ChunksOfFile(Enriched(s.worker.file, s.worker.parts), s.worker.file, f);
      case Fail(left) =>
        if f != s.worker.file {
          OthersLeft(left, s.index, s.worker.file, f);
        }
      case _ =>
    }
  }

  lemma StepKeeps(s: State, a: Action)
    requires Inv(s) && Enabled(s, a)
    ensures Inv(Do(s, a))
  {
    ExtensionsKept(s, a);
    forall f
      ensures FileInv(Do(s, a), f)
    {
      if a.Pick? {
        PickKeeps(s, f);
      } else if OfWorker(a) {
        WorkerKeeps(s, a, f);
      } else {
        RequestKeeps(s, a, f);
      }
    }
  }

  // ----- Whole runs

  ghost predicate Runs(s: State, actions: seq<Action>)
    requires Rooted(s)
    decreases |actions|
  {
    actions == [] || (Enabled(s, actions[0]) && (RootedKept(s, actions[0]); Runs(Do(s, actions[0]), actions[1..])))
  }

  ghost function After(s: State, actions: seq<Action>): (t: State)
    requires Rooted(s) && Runs(s, actions)
    ensures Rooted(t)
    decreases |actions|
  {
    if actions == [] then s else (RootedKept(s, actions[0]); After(Do(s, actions[0]), actions[1..]))
  }

  // A system with no row yet.
  function Empty(): State {
    State(map[], 0, map[], [], [], Idle, [])
  }

  lemma {:induction false} RunKeeps(s: State, actions: seq<Action>)
    requires Inv(s) && Runs(s, actions)
    ensures Inv(After(s, actions))
    decreases |actions|
  {
    if actions != [] {
      StepKeeps(s, actions[0]);
      RunKeeps(Do(s, actions[0]), actions[1..]);
    }
  }

  // However requests and worker steps interleave: when nothing is queued, in flight or being
  // reindexed, the index holds for every ready file exactly the split of its current content,
  // numbered from 0 on, and the row has the right count.
  lemma QuiescentIsUpToDate(s: State, actions: seq<Action>)
    requires Inv(s) && Runs(s, actions) && Quiescent(After(s, actions))
    ensures forall f :: UpToDate(After(s, actions), f)
    ensures var t := After(s, actions);
            forall f | f in t.db && t.db[f].status == Ready ::
              && f in t.store && t.store[f].Readable?
              && var chunks, parts := ChunksOf(t.index, f), t.store[f].parts;
                 |chunks| == |parts| == t.db[f].chunkCount && forall i | 0 <= i < |parts| :: chunks[i] == Chunk(f, i, parts[i])
  {
    var t := After(s, actions);
    RunKeeps(s, actions);
    forall f
      ensures UpToDate(t, f)
    {
      assert FileInv(t, f);
    }
    forall f | f in t.db && t.db[f].status == Ready
      ensures UpToDate(t, f) && forall i | 0 <= i < |t.store[f].parts| :: Enriched(f, t.store[f].parts)[i] == Chunk(f, i, t.store[f].parts[i])
    {
    }
  }

  // ----- Quiescence is reached whenever requests stop arriving

  predicate Starts(a: Action) {
    a.StartUpload? || a.UploadAgain? || a.StartRetry? || a.StartSave?
  }

  function RequestWork(q: Request): nat {
    match q
    case Saving(_, _) => 10
    case Uploading(_, _) => 9
    case Retrying(_, _) => 9
    case Saved(_, _) => 9
    case Enqueueing(_) => 8
  }

  function RequestsWork(rs: seq<Request>): nat {
    if rs == [] then 0 else RequestWork(rs[0]) + RequestsWork(rs[1..])
  }

  function WorkerWork(w: Worker): nat {
    match w
    case Idle => 0
    case Picked(_, _) => 6
    case Marked(_) => 5
    case Refreshed(_, _) => 4
    case Loaded(_, _, _) => 3
    case Cleared(_, _, _) => 2
    case Indexed(_, _, _) => 1
  }

  // An upper bound on the steps still to be taken.
  function Work(s: State): nat {
    RequestsWork(s.requests) + 7 * |s.queue| + WorkerWork(s.worker)
  }

  lemma {:induction false} WorkWithout(rs: seq<Request>, r: nat)
    requires r < |rs|
    ensures RequestsWork(Without(rs, r)) == RequestsWork(rs) - RequestWork(rs[r])
  {
    if r == 0 {
      assert Without(rs, 0) == rs[1..];
    } else {
      WorkWithout(rs[1..], r - 1);
      assert Without(rs, r)[1..] == Without(rs[1..], r - 1);
    }
  }

  lemma {:induction false} WorkReplaced(rs: seq<Request>, r: nat, q: Request)
    requires r < |rs|
    ensures RequestsWork(rs[r := q]) == RequestsWork(rs) - RequestWork(rs[r]) + RequestWork(q)
  {
    if r == 0 {
      assert rs[0 := q][1..] == rs[1..];
    } else {
      WorkReplaced(rs[1..], r - 1, q);
      assert rs[r := q][1..] == rs[1..][r - 1 := q];
    }
  }

  lemma RequestShrinks(s: State, a: Action)
    requires Rooted(s) && Enabled(s, a) && !Starts(a) && !OfWorker(a)
    ensures Work(RequestStep(s, a)) < Work(s)
  {
    var f := s.requests[a.r].file;
    match a
    case CommitUpload(r) => WorkReplaced(s.requests, r, Enqueueing(f));
    case CommitRetry(r) => WorkReplaced(s.requests, r, Enqueueing(f));
    case StoreSave(r, _) => WorkReplaced(s.requests, r, Saved(f, s.requests[r].row));
    case CommitSave(r) =>
      WorkReplaced(s.requests, r, Enqueueing(f));
      WorkWithout(s.requests, r);
    case Enqueue(r) => WorkWithout(s.requests, r);
  }

  lemma WorkShrinks(s: State, a: Action)
    requires Rooted(s) && Enabled(s, a) && !Starts(a)
    ensures Work(Do(s, a)) < Work(s)
  {
    if !OfWorker(a) {
      RequestShrinks(s, a);
    }
  }

  // Unless the system is quiescent, a step that starts no request is possible ...
  lemma SomethingToDo(s: State) returns (a: Action)
    requires Rooted(s) && !Quiescent(s)
    ensures Enabled(s, a) && !Starts(a)
  {
    if s.requests != [] {
      match s.requests[0]
      case Uploading(_, _) => a := CommitUpload(0);
      case Retrying(_, _) => a := CommitRetry(0);
      case Saving(_, _) => a := StoreSave(0, Unreadable);
      case Saved(_, _) => a := CommitSave(0);
      case Enqueueing(_) => a := Enqueue(0);
    } else {
      match s.worker
      case Idle => a := Pick;
      case Picked(_, _) => a := MarkIndexing;
      case Marked(_) => a := Refresh;
      case Refreshed(_, _) => a := Fail(s.index);
      case Loaded(_, _, _) => a := DeleteChunks;
      case Cleared(_, _, _) => a := AddChunks;
      case Indexed(_, _, _) => a := MarkReady;
    }
  }

  // ... and only so many such steps can be taken in a row, whatever they are.
  lemma {:induction false} RunsEnd(s: State, actions: seq<Action>)
    requires Rooted(s) && Runs(s, actions)
    requires forall i | 0 <= i < |actions| :: !Starts(actions[i])
    ensures |actions| + Work(After(s, actions)) <= Work(s)
    decreases |actions|
  {
    if actions != [] {
      RootedKept(s, actions[0]);
      WorkShrinks(s, actions[0]);
      RunsEnd(Do(s, actions[0]), actions[1..]);
    }
  }

  // ----- On the way, a ready file can be out of date

  lemma RunFrom(s: State, a: Action, t: State, rest: seq<Action>) returns (actions: seq<Action>)
    requires Rooted(s) && Enabled(s, a) && t == Do(s, a) && Rooted(t) && Runs(t, rest)
    ensures actions == [a] + rest && Runs(s, actions) && After(s, actions) == After(t, rest)
  {
    actions := [a] + rest;
    TailOfCons(a, rest);
  }

  // The content is replaced after the worker has read it and before the worker marks the file
  // ready: the row then says `ready`, and the index holds what is no longer stored.
  lemma StaleReady() returns (actions: seq<Action>)
    ensures Inv(Empty()) && Runs(Empty(), actions)
    ensures var s := After(Empty(), actions);
            0 in s.db && s.db[0].status == Ready && !UpToDate(s, 0)
  {
    var indexing := Row(Indexing, 0, true);
    var s := OneFile(indexing, Refreshed(0, indexing));
    var t := s.(store := map[0 := Readable(["new"])], requests := [Saved(0, indexing)],
                worker := Loaded(0, indexing, ["old"]));
    var done := t.(db := map[0 := Row(Ready, 1, true)], index := [Chunk(0, 0, "old")], worker := Idle);
    OldIsStale(done);
    actions := UpToReady(t, done, []);
    var loaded := OneFile(indexing, t.worker);
    actions := UpToStore(loaded, t, actions);
    actions := UpToLoad(s, loaded, actions);
    actions := UpToRefresh(s, actions);
  }

  lemma OldIsStale(s: State)
    requires s.db == map[0 := Row(Ready, 1, true)] && s.store == map[0 := Readable(["new"])]
    requires s.index == [Chunk(0, 0, "old")]
    ensures !UpToDate(s, 0)
  {
    assert Enriched(0, ["new"])[0].text[0] == 'n' && s.index[0].text[0] == 'o';
    assert ChunksOf(s.index, 0) == [s.index[0]] + ChunksOf(s.index[1..], 0);
  }

  function OneFile(row: Row, worker: Worker): State {
    State(map[0 := row], 1, map[0 := Readable(["old"])], [], [], worker, [])
  }

  // The worker deletes and adds chunks and marks the file ready, from what it read before.
  lemma UpToReady(s: State, t: State, rest: seq<Action>) returns (actions: seq<Action>)
    requires Rooted(s) && 0 in s.db && s.db[0] == Row(Indexing, 0, true) && s.index == []
    requires s.worker == Loaded(0, Row(Indexing, 0, true), ["old"])
    requires t == s.(db := s.db[0 := Row(Ready, 1, true)], index := [Chunk(0, 0, "old")], worker := Idle)
    requires Rooted(t) && Runs(t, rest)
    ensures Runs(s, actions) && After(s, actions) == After(t, rest)
  {
    var indexing := Row(Indexing, 0, true);
    var s1 := s.(worker := Cleared(0, indexing, ["old"]));
    var s2 := s1.(index := [Chunk(0, 0, "old")], worker := Indexed(0, indexing, ["old"]));
    actions := RunFrom(s2, MarkReady, t, rest);
    assert Enriched(0, ["old"]) == [Chunk(0, 0, "old")];
    actions := RunFrom(s1, AddChunks, s2, actions);
    assert ChunksOfOthers([], 0) == [];
    actions := RunFrom(s, DeleteChunks, s1, actions);
  }

  // A save starts once the worker has read the content, and stores another.
  lemma UpToStore(s: State, t: State, rest: seq<Action>) returns (actions: seq<Action>)
    requires var indexing := Row(Indexing, 0, true);
             && s == OneFile(indexing, Loaded(0, indexing, ["old"]))
             && t == s.(store := map[0 := Readable(["new"])], requests := [Saved(0, indexing)])
    requires Rooted(t) && Runs(t, rest)
    ensures Rooted(s) && Runs(s, actions) && After(s, actions) == After(t, rest)
  {
    var u := s.(requests := [Saving(0, Row(Indexing, 0, true))]);
    assert s.requests + [Saving(0, s.db[0])] == u.requests;
    assert s.store[0 := Readable(["new"])] == t.store;
    assert u.requests[0 := Saved(0, Row(Indexing, 0, true))] == t.requests;
    actions := RunFrom(u, StoreSave(0, Readable(["new"])), t, rest);
    actions := RunFrom(s, StartSave(0), u, actions);
  }

  lemma UpToLoad(s: State, t: State, rest: seq<Action>) returns (actions: seq<Action>)
    requires var indexing := Row(Indexing, 0, true);
             s == OneFile(indexing, Refreshed(0, indexing)) && t == OneFile(indexing, Loaded(0, indexing, ["old"]))
    requires Rooted(t) && Runs(t, rest)
    ensures Rooted(s) && Runs(s, actions) && After(s, actions) == After(t, rest)
  {
    actions := RunFrom(s, Load, t, rest);
  }

  // From the empty system to a file that the worker has marked `indexing`.
  lemma UpToRefresh(s: State, rest: seq<Action>) returns (actions: seq<Action>)
    requires s == OneFile(Row(Indexing, 0, true), Refreshed(0, Row(Indexing, 0, true)))
    requires Rooted(s) && Runs(s, rest)
    ensures Inv(Empty()) && Runs(Empty(), actions) && After(Empty(), actions) == After(s, rest)
  {
    var uploaded := Row(Uploaded, 0, true);
    var r4 := OneFile(uploaded, Picked(0, uploaded));
    var r5 := s.(worker := Marked(0));
    actions := RunFrom(r5, Refresh, s, rest);
    actions := RunFrom(r4, MarkIndexing, r5, actions);
    actions := UpToPick(r4, actions);
  }

  lemma UpToPick(s: State, rest: seq<Action>) returns (actions: seq<Action>)
    requires s == OneFile(Row(Uploaded, 0, true), Picked(0, Row(Uploaded, 0, true)))
    requires Rooted(s) && Runs(s, rest)
    ensures Inv(Empty()) && Runs(Empty(), actions) && After(Empty(), actions) == After(s, rest)
  {
    var r3 := OneFile(Row(Uploaded, 0, true), Idle).(queue := [0]);
    assert r3.queue[1..] == [];
    actions := RunFrom(r3, Pick, s, rest);
    actions := UpToEnqueue(r3, actions);
  }

  lemma UpToEnqueue(s: State, rest: seq<Action>) returns (actions: seq<Action>)
    requires s == OneFile(Row(Uploaded, 0, true), Idle).(queue := [0])
    requires Rooted(s) && Runs(s, rest)
    ensures Inv(Empty()) && Runs(Empty(), actions) && After(Empty(), actions) == After(s, rest)
  {
    var r2 := OneFile(Row(Uploaded, 0, true), Idle).(requests := [Enqueueing(0)]);
    assert Without(r2.requests, 0) == [] && r2.queue + [0] == s.queue;
    actions := RunFrom(r2, Enqueue(0), s, rest);
    actions := UpToCommit(r2, actions);
  }

  lemma UpToCommit(s: State, rest: seq<Action>) returns (actions: seq<Action>)
    requires s == OneFile(Row(Uploaded, 0, true), Idle).(requests := [Enqueueing(0)])
    requires Rooted(s) && Runs(s, rest)
    ensures Inv(Empty()) && Runs(Empty(), actions) && After(Empty(), actions) == After(s, rest)
  {
    var r1 := Empty().(nextId := 1, store := map[0 := Readable(["old"])], requests := [Uploading(0, true)]);
    assert Do(Empty(), StartUpload(Readable(["old"]), true)) == r1;
    assert r1.requests[0 := Enqueueing(0)] == s.requests;
    actions := RunFrom(r1, CommitUpload(0), s, rest);
    actions := RunFrom(Empty(), StartUpload(Readable(["old"]), true), r1, actions);
  }
}

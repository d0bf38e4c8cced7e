/** Artifact rows and their revisions: what the operations of the artifact service make of the
    table, and what any sequence of them keeps. A row's id is its position; timestamps are
    arbitrary numbers. */
module Artifacts {
  import opened Options
  import Workflow

  datatype Status = Running | Ready | Failed

  // Whose, where and of what type an artifact is.
  datatype Key = Key(user: nat, thread: string, kind: Workflow.Kind)

  datatype Row = Row(
    key: Key,
    plan: nat,
    parent: Option<nat>,
    root: Option<nat>,
    revision: nat,
    current: bool,
    status: Status,
    updatedAt: int)

  // What is committed at once. Creating a row is one commit, or two when its root is not known
  // before it has an id.
  datatype Op =
    | Create(key: Key, plan: nat, now: int)
    | Revise(source: nat, now: int)
    | FillRoot(id: nat)
    | MarkReady(id: nat, clearedAt: int, now: int)
    | MarkFailed(id: nat, now: int)

  // ----- The operations

  function NewRow(key: Key, plan: nat, parent: Option<nat>, root: Option<nat>, revision: Option<nat>, now: int): Row {
    Row(key, plan, parent, root, OrOne(revision), parent.None?, Running, now)
  }

  // `n or 1`: an absent number and zero both become one.
  function OrOne(n: Option<nat>): nat {
    if n.None? || n.value == 0 then 1 else n.value
  }

  function Revision(rows: seq<Row>, source: nat, now: int): Row
    requires source < |rows|
  {
    var s := rows[source];
    NewRow(s.key, s.plan, Some(source), Some(RootOf(rows, source)), Some(OrOne(Some(s.revision)) + 1), now)
  }

  function RootOf(rows: seq<Row>, i: nat): nat
    requires i < |rows|
  {
    rows[i].root.UnwrapOr(i)
  }

  // The other current rows of the same key stop being current.
  function Readied(rows: seq<Row>, id: nat, clearedAt: int, now: int): seq<Row>
    requires id < |rows|
  {
    seq(|rows|, i requires 0 <= i < |rows| =>
      if i == id then rows[i].(status := Ready, current := true, updatedAt := now)
      else if rows[i].current && rows[i].key == rows[id].key then rows[i].(current := false, updatedAt := clearedAt)
      else rows[i])
  }

  function MarkedFailed(rows: seq<Row>, id: nat, now: int): seq<Row>
    requires id < |rows|
  {
    rows[id := rows[id].(status := Failed, updatedAt := now)]
  }

  predicate Enabled(rows: seq<Row>, op: Op) {
    match op
    case Create(_, _, _) => true
    case Revise(source, _) => source < |rows|
    case FillRoot(id) => id < |rows|
    case MarkReady(id, _, _) => id < |rows|
    case MarkFailed(id, _) => id < |rows|
  }

  function Do(rows: seq<Row>, op: Op): seq<Row>
    requires Enabled(rows, op)
  {
    match op
    case Create(key, plan, now) => rows + [NewRow(key, plan, None, None, None, now)]
    case Revise(source, now) => rows + [Revision(rows, source, now)]
    case FillRoot(id) => rows[id := rows[id].(root := Some(RootOf(rows, id)))]
    case MarkReady(id, clearedAt, now) => Readied(rows, id, clearedAt, now)
    case MarkFailed(id, now) => MarkedFailed(rows, id, now)
  }

  predicate Runs(rows: seq<Row>, ops: seq<Op>)
    decreases |ops|, 0
  {
    ops == [] || (var n := |ops| - 1; Runs(rows, ops[..n]) && Enabled(After(rows, ops[..n]), ops[n]))
  }

  function After(rows: seq<Row>, ops: seq<Op>): seq<Row>
    requires Runs(rows, ops)
    decreases |ops|, 1
  {
    if ops == [] then rows else var n := |ops| - 1; Do(After(rows, ops[..n]), ops[n])
  }

  // ----- The invariant

  predicate Descends(rows: seq<Row>, i: nat)
    requires i < |rows|
  {
    var r := rows[i];
    match r.parent
    case None => r.revision == 1 && RootOf(rows, i) == i
    case Some(p) =>
      && p < i && r.key == rows[p].key && r.plan == rows[p].plan
      && r.revision == rows[p].revision + 1 && r.root == Some(RootOf(rows, p))
  }

  predicate Forest(rows: seq<Row>) {
    forall i | 0 <= i < |rows| :: rows[i].revision > 0 && Descends(rows, i)
  }

  // The row that readers of the key see.
  predicate IsEntry(rows: seq<Row>, i: nat) {
    i < |rows| && rows[i].current && rows[i].status.Ready?
  }

  predicate OneEntry(rows: seq<Row>) {
    forall i, j | 0 <= i < j < |rows| && IsEntry(rows, i) && IsEntry(rows, j) :: rows[i].key != rows[j].key
  }

  predicate Inv(rows: seq<Row>) {
    Forest(rows) && OneEntry(rows)
  }

  // What the forest is made of never changes, and ids are never reused.
  predicate Extends(rows: seq<Row>, later: seq<Row>) {
    |rows| <= |later| &&
    forall i | 0 <= i < |rows| ::
      && later[i].key == rows[i].key && later[i].plan == rows[i].plan && later[i].parent == rows[i].parent
      && RootOf(later, i) == RootOf(rows, i) && later[i].revision == rows[i].revision
      && (rows[i].root.Some? ==> later[i].root == rows[i].root)
  }

  // ----- A row's status

  // What the last operation that marks the row makes of it.
  function LastMark(ops: seq<Op>, id: nat, before: Status): Status {
    if ops == [] then before
    else
      var n := |ops| - 1;
      match ops[n]
      case MarkReady(i, _, _) => if i == id then Ready else LastMark(ops[..n], id, before)
      case MarkFailed(i, _) => if i == id then Failed else LastMark(ops[..n], id, before)
      case _ => LastMark(ops[..n], id, before)
  }

  // In any interleaving a row is running until an operation marks it, and then as it was marked last.
  lemma {:induction false} StatusIsLastMark(rows: seq<Row>, ops: seq<Op>, id: nat)
    requires Runs(rows, ops) && id < |After(rows, ops)|
    ensures After(rows, ops)[id].status == LastMark(ops, id, if id < |rows| then rows[id].status else Running)
    decreases |ops|
  {
    if ops != [] {
      var n := |ops| - 1;
      if id < |After(rows, ops[..n])| {
        StatusIsLastMark(rows, ops[..n], id);
      } else {
        NotYetMarked(rows, ops[..n], id);
      }
    }
  }

  lemma {:induction false} NotYetMarked(rows: seq<Row>, ops: seq<Op>, id: nat)
    requires Runs(rows, ops) && |After(rows, ops)| <= id
    ensures |rows| <= id && LastMark(ops, id, Running) == Running
    decreases |ops|
  {
    if ops != [] {
      NotYetMarked(rows, ops[..|ops| - 1], id);
    }
  }

  lemma OpExtends(rows: seq<Row>, op: Op)
    requires Enabled(rows, op)
    ensures Extends(rows, Do(rows, op))
  {
  }

  lemma OpKeepsForest(rows: seq<Row>, op: Op)
    requires Forest(rows) && Enabled(rows, op)
    ensures Forest(Do(rows, op))
  {
    var later := Do(rows, op);
    OpExtends(rows, op);
    forall i | 0 <= i < |later|
      ensures later[i].revision > 0 && Descends(later, i)
    {
      if i < |rows| {
        assert Descends(rows, i);
        assert later[i].parent.Some? ==> RootOf(later, later[i].parent.value) == RootOf(rows, later[i].parent.value);
      }
    }
  }

  lemma OpKeepsOneEntry(rows: seq<Row>, op: Op)
    requires OneEntry(rows) && Enabled(rows, op)
    ensures OneEntry(Do(rows, op))
  {
    var later := Do(rows, op);
    forall i, j | 0 <= i < j < |later| && IsEntry(later, i) && IsEntry(later, j)
      ensures later[i].key != later[j].key
    {
      if op.MarkReady? {
        assert i != op.id ==> IsEntry(rows, i);
        assert j != op.id ==> IsEntry(rows, j);
      } else {
        assert IsEntry(rows, i) && IsEntry(rows, j);
      }
    }
  }

  // Each operation, on any row, keeps the forest and at most one ready and current row of a key.
  lemma OpKeeps(rows: seq<Row>, op: Op)
    requires Inv(rows) && Enabled(rows, op)
    ensures Inv(Do(rows, op)) && Extends(rows, Do(rows, op))
  {
    OpExtends(rows, op);
    OpKeepsForest(rows, op);
    OpKeepsOneEntry(rows, op);
  }

  lemma {:induction false} OpsKeep(rows: seq<Row>, ops: seq<Op>)
    requires Inv(rows) && Runs(rows, ops)
    ensures Inv(After(rows, ops)) && Extends(rows, After(rows, ops))
    decreases |ops|
  {
    if ops != [] {
      var n := |ops| - 1;
      OpsKeep(rows, ops[..n]);
      OpKeeps(After(rows, ops[..n]), ops[n]);
    }
  }

  // ----- Revisions form a forest

  // n parent steps up from row i, if there are that many.
  function Ancestor(rows: seq<Row>, i: nat, n: nat): Option<nat>
    decreases n
  {
    if i >= |rows| then None
    else if n == 0 then Some(i)
    else if rows[i].parent.None? then None
    else Ancestor(rows, rows[i].parent.value, n - 1)
  }

  lemma {:induction false} AncestorAt(rows: seq<Row>, i: nat, n: nat)
    requires Forest(rows) && i < |rows|
    ensures Ancestor(rows, i, n).Some? <==> n < rows[i].revision
    ensures n < rows[i].revision ==>
              var a := Ancestor(rows, i, n).value;
              && a + n <= i && a < |rows| && rows[a].key == rows[i].key && rows[a].plan == rows[i].plan
              && RootOf(rows, a) == RootOf(rows, i) && rows[a].revision == rows[i].revision - n
    decreases i
  {
    assert Descends(rows, i);
    if rows[i].parent.Some? && n > 0 {
      AncestorAt(rows, rows[i].parent.value, n - 1);
    }
  }

  // From any row, `revision - 1` parent steps and no fewer lead to a row without a parent, and it
  // is the one that the root column names. Ids get smaller on the way; user, thread, type and
  // plan stay the same.
  lemma ChainReachesRoot(rows: seq<Row>, i: nat, n: nat)
    requires Forest(rows) && i < |rows|
    ensures Ancestor(rows, i, n).Some? <==> n < rows[i].revision
    ensures n < rows[i].revision ==>
              var a := Ancestor(rows, i, n).value;
              && a + n <= i && rows[a].key == rows[i].key && rows[a].plan == rows[i].plan
              && (rows[a].parent.None? <==> n == rows[i].revision - 1)
    ensures Ancestor(rows, i, rows[i].revision - 1) == Some(RootOf(rows, i))
  {
    AncestorAt(rows, i, n);
    AncestorAt(rows, i, rows[i].revision - 1);
    if n < rows[i].revision {
      assert Descends(rows, Ancestor(rows, i, n).value);
    }
    assert Descends(rows, Ancestor(rows, i, rows[i].revision - 1).value);
  }

  lemma RevisionsFormForest(ops: seq<Op>, i: nat)
    requires Runs([], ops) && i < |After([], ops)|
    ensures var rows := After([], ops);
            && rows[i].revision > 0 && Ancestor(rows, i, rows[i].revision - 1) == Some(RootOf(rows, i))
            && Ancestor(rows, i, rows[i].revision) == None
  {
    OpsKeep([], ops);
    ChainReachesRoot(After([], ops), i, After([], ops)[i].revision);
  }

  // ----- One entry for each key, whatever the operations

  // The entry of a key, looked for from the last row down.
  function EntryOf(rows: seq<Row>, key: Key): Option<nat> {
    if rows == [] then None
    else
      var i := |rows| - 1;
      if IsEntry(rows, i) && rows[i].key == key then Some(i) else EntryOf(rows[..i], key)
  }

  lemma {:induction false} EntryFound(rows: seq<Row>, key: Key)
    requires OneEntry(rows)
    ensures forall i: nat :: EntryOf(rows, key) == Some(i) <==> IsEntry(rows, i) && rows[i].key == key
  {
    if rows != [] {
      var n := |rows| - 1;
      assert forall i: nat | i < n :: IsEntry(rows[..n], i) == IsEntry(rows, i) && rows[..n][i] == rows[i];
      EntryFound(rows[..n], key);
    }
  }

  function KeyOf(rows: seq<Row>, op: Op): Key
    requires Enabled(rows, op)
  {
    match op
    case Create(key, _, _) => key
    case Revise(source, _) => rows[source].key
    case FillRoot(id) => rows[id].key
    case MarkReady(id, _, _) => rows[id].key
    case MarkFailed(id, _) => rows[id].key
  }

  // The operations of a run that are on one key.
  function OpsOn(rows: seq<Row>, ops: seq<Op>, key: Key): seq<Op>
    requires Runs(rows, ops)
    decreases |ops|
  {
    if ops == [] then []
    else
      var n := |ops| - 1;
      OpsOn(rows, ops[..n], key) + if KeyOf(After(rows, ops[..n]), ops[n]) == key then [ops[n]] else []
  }

  // An entry as a register: marking a row ready writes it, marking the very row failed clears it.
  function Written(entry: Option<nat>, ops: seq<Op>): Option<nat>
    decreases |ops|
  {
    if ops == [] then entry
    else
      var n := |ops| - 1;
      var before := Written(entry, ops[..n]);
      match ops[n]
      case MarkReady(id, _, _) => Some(id)
      case MarkFailed(id, _) => if before == Some(id) then None else before
      case _ => before
  }

  lemma WrittenMore(entry: Option<nat>, ops: seq<Op>, op: Op)
    ensures Written(entry, ops + [op]) ==
            match op
            case MarkReady(id, _, _) => Some(id)
            case MarkFailed(id, _) => (if Written(entry, ops) == Some(id) then None else Written(entry, ops))
            case _ => Written(entry, ops)
  {
    assert (ops + [op])[..|ops|] == ops;
  }

  lemma EntryStep(rows: seq<Row>, op: Op, key: Key)
    requires OneEntry(rows) && Enabled(rows, op)
    ensures EntryOf(Do(rows, op), key) ==
            match op
            case MarkReady(id, _, _) => (if rows[id].key == key then Some(id) else EntryOf(rows, key))
            case MarkFailed(id, _) => (if EntryOf(rows, key) == Some(id) then None else EntryOf(rows, key))
            case _ => EntryOf(rows, key)
    ensures op.MarkFailed? && EntryOf(rows, key) == Some(op.id) ==> KeyOf(rows, op) == key
  {
    OpKeepsOneEntry(rows, op);
    EntryFound(rows, key);
    match op
    case MarkReady(id, _, _) =>
      if rows[id].key == key {
        EntryIs(Do(rows, op), key, Some(id));
      } else {
        EntryIs(Do(rows, op), key, EntryOf(rows, key));
      }
    case MarkFailed(id, _) =>
      EntryIs(Do(rows, op), key, if EntryOf(rows, key) == Some(id) then None else EntryOf(rows, key));
    case _ =>
      EntryIs(Do(rows, op), key, EntryOf(rows, key));
  }

  // How to tell an entry.
  lemma EntryIs(rows: seq<Row>, key: Key, entry: Option<nat>)
    requires OneEntry(rows)
    requires forall i: nat | IsEntry(rows, i) && rows[i].key == key :: entry == Some(i)
    requires entry.Some? ==> IsEntry(rows, entry.value) && rows[entry.value].key == key
    ensures EntryOf(rows, key) == entry
  {
    EntryFound(rows, key);
  }

  // However jobs interleave, what readers see of a key is what the operations on that key, one
  // after the other, have written; all others make no difference.
  lemma {:induction false} EntryIsRegister(rows: seq<Row>, ops: seq<Op>, key: Key)
    requires Inv(rows) && Runs(rows, ops)
    ensures EntryOf(After(rows, ops), key) == Written(EntryOf(rows, key), OpsOn(rows, ops, key))
    decreases |ops|
  {
    if ops != [] {
      var n := |ops| - 1;
      var own := OpsOn(rows, ops[..n], key);
      OpsKeep(rows, ops[..n]);
      EntryIsRegister(rows, ops[..n], key);
      EntryStep(After(rows, ops[..n]), ops[n], key);
      WrittenMore(EntryOf(rows, key), own, ops[n]);
      assert own + [] == own;
    }
  }

  lemma RunsMore(rows: seq<Row>, ops: seq<Op>, op: Op, key: Key)
    requires Runs(rows, ops) && Enabled(After(rows, ops), op)
    ensures Runs(rows, ops + [op]) && After(rows, ops + [op]) == Do(After(rows, ops), op)
    ensures OpsOn(rows, ops + [op], key) ==
            OpsOn(rows, ops, key) + if KeyOf(After(rows, ops), op) == key then [op] else []
  {
    assert (ops + [op])[..|ops|] == ops;
  }

  // Two runs that have come to the same table, one step further.
  lemma BothRunMore(rows: seq<Row>, x: seq<Op>, mid: seq<Row>, y: seq<Op>, before: seq<Op>, op: Op, key: Key)
    requires Runs(rows, x) && Runs(mid, y) && After(rows, x) == After(mid, y) && Enabled(After(mid, y), op)
    requires OpsOn(rows, x, key) == before + OpsOn(mid, y, key)
    ensures Runs(rows, x + [op]) && Runs(mid, y + [op]) && After(rows, x + [op]) == After(mid, y + [op])
    ensures OpsOn(rows, x + [op], key) == before + OpsOn(mid, y + [op], key)
  {
    RunsMore(rows, x, op, key);
    RunsMore(mid, y, op, key);
    var own, last := OpsOn(mid, y, key), if KeyOf(After(mid, y), op) == key then [op] else [];
    assert before + own + last == before + (own + last);
  }

  lemma {:induction false} RunsOneAfterAnother(rows: seq<Row>, x: seq<Op>, y: seq<Op>, key: Key)
    requires Runs(rows, x) && Runs(After(rows, x), y)
    ensures Runs(rows, x + y) && After(rows, x + y) == After(After(rows, x), y)
    ensures OpsOn(rows, x + y, key) == OpsOn(rows, x, key) + OpsOn(After(rows, x), y, key)
    decreases |y|
  {
    if y == [] {
      assert x + y == x;
    } else {
      var n := |y| - 1;
      var mid, start, op := After(rows, x), y[..n], y[n];
      RunsOneAfterAnother(rows, x, start, key);
      BothRunMore(rows, x + start, mid, start, OpsOn(rows, x, key), op, key);
      assert y == start + [op] && x + y == x + start + [op];
    }
  }

  // ----- What the lock of a thread is for

  // Operations on other keys: other threads, other users, or other types of this thread. The
  // rows of the key stay as they are.
  lemma {:induction false} AvoidedRowsStay(rows: seq<Row>, ops: seq<Op>, key: Key)
    requires Runs(rows, ops) && OpsOn(rows, ops, key) == []
    ensures |rows| <= |After(rows, ops)|
    ensures forall i | 0 <= i < |rows| :: After(rows, ops)[i].key == rows[i].key
    ensures forall i | 0 <= i < |After(rows, ops)| && After(rows, ops)[i].key == key ::
              i < |rows| && After(rows, ops)[i] == rows[i]
    decreases |ops|
  {
    if ops != [] {
      var n := |ops| - 1;
      assert OpsOn(rows, ops, key) == OpsOn(rows, ops[..n], key) + OpsOn(rows, ops, key)[|OpsOn(rows, ops[..n], key)|..];
      AvoidedRowsStay(rows, ops[..n], key);
    }
  }

  // The rows that mark_artifact_ready reads before it commits.
  function OtherCurrent(rows: seq<Row>, id: nat): set<nat>
    requires id < |rows|
  {
    set i | 0 <= i < |rows| && i != id && rows[i].current && rows[i].key == rows[id].key
  }

  // Marking ready reads the other current rows first and writes later. What other keys' jobs do
  // in between makes no difference: the rows read are still the ones to clear.
  lemma ReadEarlyWriteLate(rows: seq<Row>, between: seq<Op>, id: nat, clearedAt: int, now: int)
    requires id < |rows| && Runs(rows, between) && OpsOn(rows, between, rows[id].key) == []
    ensures id < |After(rows, between)|
    ensures var later := After(rows, between);
            Readied(later, id, clearedAt, now) ==
            seq(|later|, i requires 0 <= i < |later| =>
              if i == id then later[i].(status := Ready, current := true, updatedAt := now)
              else if i in OtherCurrent(rows, id) then later[i].(current := false, updatedAt := clearedAt)
              else later[i])
  {
    AvoidedRowsStay(rows, between, rows[id].key);
  }
}

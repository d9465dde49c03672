/** Transactions and checkpoints of the in-memory back end, on table contents and undo lists. */
module RbJournal {
  import opened Bytes

  type Table = map<Blob, Blob>
  type Db = map<int, Table>

  /** One rollback operation: how to take back one logged change. */
  datatype Undo =
    | UndoInsert(tab: int, key: Blob, data: Blob)
    | UndoDelete(tab: int, key: Blob)
    | UndoCreate(tab: int)
    | UndoDrop(tab: int)

  /** What replaying the operation asserts of the tables. */
  ghost predicate Applicable(u: Undo, db: Db) {
    match u
    case UndoInsert(n, _, _) => n in db
    case UndoDelete(n, k) => n in db && k in db[n]
    case UndoCreate(n) => n !in db
    case UndoDrop(n) => n in db
  }

  ghost function Apply(u: Undo, db: Db): Db
    requires Applicable(u, db)
  {
    match u
    case UndoInsert(n, k, d) => db[n := db[n][k := d]]
    case UndoDelete(n, k) => db[n := db[n] - {k}]
    case UndoCreate(n) => db[n := map[]]
    case UndoDrop(n) => db - {n}
  }

  /** Replaying the list, first operation first, meets every assertion and ends in base. */
  ghost predicate Restores(log: seq<Undo>, db: Db, base: Db)
    decreases |log|
  {
    if log == [] then db == base
    else Applicable(log[0], db) && Restores(log[1..], Apply(log[0], db), base)
  }

  /** An operation logged in front of a list undoes its own change first. */
  lemma Logged(u: Undo, log: seq<Undo>, before: Db, after: Db, base: Db)
    requires Restores(log, before, base)
    requires Applicable(u, after) && Apply(u, after) == before
    ensures Restores([u] + log, after, base)
  {
    assert ([u] + log)[1..] == log;
  }

  /** Splicing one list in front of another composes what they restore. */
  lemma {:induction false} Spliced(a: seq<Undo>, b: seq<Undo>, db: Db, mid: Db, base: Db)
    requires Restores(a, db, mid) && Restores(b, mid, base)
    ensures Restores(a + b, db, base)
    decreases |a|
  {
    if a == [] {
      assert a + b == b;
    } else {
      Spliced(a[1..], b, Apply(a[0], db), mid, base);
      assert (a + b)[1..] == a[1..] + b;
    }
  }

  /** A list takes given tables back to one state only. */
  lemma {:induction false} RestoresUnique(log: seq<Undo>, db: Db, base: Db, base': Db)
    requires Restores(log, db, base) && Restores(log, db, base')
    ensures base == base'
    decreases |log|
  {
    if log != [] {
      RestoresUnique(log[1..], Apply(log[0], db), base, base');
    }
  }

  // ---------------------------------------------------------------- states and commands

  datatype TransState = TransNone | InTransaction | InCheckpoint | InRollback

  datatype Journal = Journal(db: Db, nextIdx: int, mode: TransState, trans: seq<Undo>, check: seq<Undo>)

  /** Table numbers already handed out. */
  ghost predicate Below(db: Db, nextIdx: int) {
    forall n | n in db :: n < nextIdx
  }

  /** Both lists are empty outside a transaction; the checkpoint's list is empty outside a checkpoint. */
  ghost predicate WellFormed(j: Journal) {
    && Below(j.db, j.nextIdx)
    && (j.mode == TransNone ==> j.trans == [])
    && (j.mode != InCheckpoint ==> j.check == [])
  }

  /** btreeLogRollbackOp: the head of the list of the current mode. */
  function Log(j: Journal, u: Undo): Journal {
    match j.mode
    case InTransaction => j.(trans := [u] + j.trans)
    case InCheckpoint => j.(check := [u] + j.check)
    case _ => j
  }

  datatype Cmd =
    | Put(tab: int, key: Blob, data: Blob)
    | Del(tab: int, key: Blob)
    | Clear(tab: int, order: seq<Blob>)
    | Create
    | Drop(tab: int, order: seq<Blob>)
    | BeginCkpt
    | CommitCkpt
    | RollbackCkpt

  /** The order in which a table's rows are removed: every key once. */
  ghost predicate Enumerates(order: seq<Blob>, t: Table) {
    && (forall i, k | 0 <= i < k < |order| :: order[i] != order[k])
    && (set i | 0 <= i < |order| :: order[i]) == t.Keys
  }

  /** What a command's caller must provide. */
  ghost predicate Legal(j: Journal, c: Cmd) {
    match c
    case Put(n, _, _) => j.mode != TransNone && n in j.db
    case Del(n, k) => j.mode != TransNone && n in j.db && k in j.db[n]
    case Clear(n, order) => j.mode != TransNone && n in j.db && Enumerates(order, j.db[n])
    case Create => j.mode != TransNone
    case Drop(n, order) => j.mode != TransNone && n in j.db && Enumerates(order, j.db[n])
    case _ => true
  }

  ghost function AfterPut(j: Journal, n: int, k: Blob, d: Blob): Journal
    requires n in j.db
  {
    var u := if k in j.db[n] then UndoInsert(n, k, j.db[n][k]) else UndoDelete(n, k);
    Log(j, u).(db := j.db[n := j.db[n][k := d]])
  }

  ghost function AfterDel(j: Journal, n: int, k: Blob): Journal
    requires n in j.db && k in j.db[n]
  {
    Log(j, UndoInsert(n, k, j.db[n][k])).(db := j.db[n := j.db[n] - {k}])
  }

  /** Rows removed one at a time, each logged. */
  ghost function AfterDels(j: Journal, n: int, order: seq<Blob>): Journal
    decreases |order|
  {
    if order == [] || n !in j.db || order[0] !in j.db[n] then j
    else AfterDels(AfterDel(j, n, order[0]), n, order[1..])
  }

  ghost function AfterCreate(j: Journal): Journal {
    Log(j, UndoDrop(j.nextIdx)).(db := j.db[j.nextIdx := map[]], nextIdx := j.nextIdx + 1)
  }

  ghost function AfterDrop(j: Journal, n: int, order: seq<Blob>): Journal {
    var j1 := AfterDels(j, n, order);
    Log(j1, UndoCreate(n)).(db := j1.db - {n})
  }

  ghost function AfterCommitCkpt(j: Journal): Journal {
    if j.mode == InCheckpoint then j.(trans := j.check + j.trans, check := [], mode := InTransaction) else j
  }

  ghost function Replay(log: seq<Undo>, db: Db): Db
    requires exists base :: Restores(log, db, base)
  {
    var base :| Restores(log, db, base);
    base
  }

  lemma ReplayIs(log: seq<Undo>, db: Db, base: Db)
    requires Restores(log, db, base)
    ensures Replay(log, db) == base
  {
    RestoresUnique(log, db, base, Replay(log, db));
  }

  ghost predicate Replays(log: seq<Undo>, db: Db) {
    exists base :: Restores(log, db, base)
  }

  ghost function AfterRollbackCkpt(j: Journal): Journal
    requires Replays(j.check, j.db)
  {
    if j.mode == InCheckpoint then j.(db := Replay(j.check, j.db), check := [], mode := InTransaction) else j
  }

  /** What the lists promise: base0 is the tables at BeginTrans, base1 those at BeginCkpt. */
  ghost predicate Promises(j: Journal, base0: Db, base1: Db) {
    && WellFormed(j)
    && match j.mode
       case TransNone => true
       case InRollback => false
       case InTransaction => Restores(j.trans, j.db, base0) && Below(base0, j.nextIdx)
       case InCheckpoint =>
         && Restores(j.check, j.db, base1) && Restores(j.trans, base1, base0)
         && Below(base0, j.nextIdx) && Below(base1, j.nextIdx)
  }

  /** A change whose undo is logged in front keeps both promises. */
  lemma LoggedChange(j: Journal, u: Undo, db': Db, base0: Db, base1: Db)
    requires Promises(j, base0, base1)
    requires Applicable(u, db') && Apply(u, db') == j.db
    requires Below(db', j.nextIdx)
    ensures Promises(Log(j, u).(db := db'), base0, base1)
  {
    match j.mode
    case TransNone =>
    case InRollback =>
    case InTransaction => Logged(u, j.trans, j.db, db', base0);
    case InCheckpoint => Logged(u, j.check, j.db, db', base1);
  }

  lemma PutKeeps(j: Journal, n: int, k: Blob, d: Blob, base0: Db, base1: Db)
    requires Promises(j, base0, base1) && n in j.db
    ensures Promises(AfterPut(j, n, k, d), base0, base1)
  {
    var db' := j.db[n := j.db[n][k := d]];
    var u := if k in j.db[n] then UndoInsert(n, k, j.db[n][k]) else UndoDelete(n, k);
    assert Apply(u, db')[n] == j.db[n];
    assert Apply(u, db') == j.db;
    LoggedChange(j, u, db', base0, base1);
  }

  lemma DelKeeps(j: Journal, n: int, k: Blob, base0: Db, base1: Db)
    requires Promises(j, base0, base1) && n in j.db && k in j.db[n]
    ensures Promises(AfterDel(j, n, k), base0, base1)
  {
    var db' := j.db[n := j.db[n] - {k}];
    var u := UndoInsert(n, k, j.db[n][k]);
    assert Apply(u, db')[n] == j.db[n];
    assert Apply(u, db') == j.db;
    LoggedChange(j, u, db', base0, base1);
  }

  lemma {:induction false} DelsKeep(j: Journal, n: int, order: seq<Blob>, base0: Db, base1: Db)
    requires Promises(j, base0, base1)
    ensures Promises(AfterDels(j, n, order), base0, base1)
    decreases |order|
  {
    if !(order == [] || n !in j.db || order[0] !in j.db[n]) {
      DelKeeps(j, n, order[0], base0, base1);
      DelsKeep(AfterDel(j, n, order[0]), n, order[1..], base0, base1);
    }
  }

  lemma {:induction false} DelsAppend(j: Journal, n: int, order: seq<Blob>, k: Blob)
    requires n in j.db && DelsApply(j, n, order)
    requires n in AfterDels(j, n, order).db && k in AfterDels(j, n, order).db[n]
    ensures AfterDels(j, n, order + [k]) == AfterDel(AfterDels(j, n, order), n, k)
    ensures DelsApply(j, n, order + [k])
    decreases |order|
  {
    var longer := order + [k];
    if order == [] {
      assert longer[1..] == [];
    } else {
      assert longer[1..] == order[1..] + [k];
      DelsAppend(AfterDel(j, n, order[0]), n, order[1..], k);
    }
  }

  /** Every row of the list is there when its turn comes. */
  ghost predicate DelsApply(j: Journal, n: int, order: seq<Blob>)
    decreases |order|
  {
    order != [] ==> n in j.db && order[0] in j.db[n] && DelsApply(AfterDel(j, n, order[0]), n, order[1..])
  }

  /** Rows already removed, and the rows still there. */
  ghost predicate Partly(order: seq<Blob>, t0: Table, t: Table) {
    && (forall i, k | 0 <= i < k < |order| :: order[i] != order[k])
    && (forall i | 0 <= i < |order| :: order[i] in t0 && order[i] !in t)
    && (forall k | k in t0 :: k in t || k in order)
    && (forall k | k in t :: k in t0)
  }

  lemma PartlyStep(order: seq<Blob>, t0: Table, t: Table, k: Blob)
    requires Partly(order, t0, t) && k in t && k in t0
    ensures Partly(order + [k], t0, t - {k})
  {
    forall q | q in t0 ensures q in t - {k} || q in order + [k] {
      if q == k { assert (order + [k])[|order|] == k; }
    }
  }

  lemma PartlyDone(order: seq<Blob>, t0: Table)
    requires Partly(order, t0, map[])
    ensures Enumerates(order, t0)
  {
    var keys := set i | 0 <= i < |order| :: order[i];
    forall k | k in t0 ensures k in keys {
      var i :| 0 <= i < |order| && order[i] == k;
    }
    assert keys == t0.Keys;
  }

  /** State j is j0 with the listed rows of table n removed, each logged. */
  ghost predicate Clearing(j0: Journal, n: int, order: seq<Blob>, j: Journal) {
    && n in j0.db && n in j.db && DelsApply(j0, n, order) && j == AfterDels(j0, n, order)
    && Partly(order, j0.db[n], j.db[n])
  }

  lemma ClearingStep(j0: Journal, n: int, order: seq<Blob>, j: Journal, k: Blob)
    requires Clearing(j0, n, order, j) && k in j.db[n]
    ensures Clearing(j0, n, order + [k], AfterDel(j, n, k))
  {
    DelsAppend(j0, n, order, k);
    PartlyStep(order, j0.db[n], j.db[n], k);
  }

  lemma EnumeratesTail(order: seq<Blob>, t: Table)
    requires Enumerates(order, t) && order != []
    ensures order[0] in t && Enumerates(order[1..], t - {order[0]})
  {
    var rest := order[1..];
    var keys := set i | 0 <= i < |order| :: order[i];
    var keys' := set i | 0 <= i < |rest| :: rest[i];
    assert order[0] in keys;
    forall k | k in keys && k != order[0] ensures k in keys' {
      var i :| 0 <= i < |order| && order[i] == k;
      assert rest[i - 1] == k;
    }
    forall k | k in keys' ensures k in keys && k != order[0] {
      var i :| 0 <= i < |rest| && rest[i] == k;
      assert order[i + 1] == k;
    }
    assert keys' == (t - {order[0]}).Keys;
  }

  /** Removing the rows in any enumerating order empties the table and leaves the others alone. */
  lemma {:induction false} DelsEmpty(j: Journal, n: int, order: seq<Blob>)
    requires n in j.db && Enumerates(order, j.db[n])
    ensures AfterDels(j, n, order).db == j.db[n := map[]]
    ensures AfterDels(j, n, order).mode == j.mode && AfterDels(j, n, order).nextIdx == j.nextIdx
    decreases |order|
  {
    if order == [] {
      assert j.db[n] == map[];
    } else {
      EnumeratesTail(order, j.db[n]);
      DelsEmpty(AfterDel(j, n, order[0]), n, order[1..]);
    }
  }

  lemma CreateKeeps(j: Journal, base0: Db, base1: Db)
    requires Promises(j, base0, base1)
    ensures Promises(AfterCreate(j), base0, base1)
  {
    var db' := j.db[j.nextIdx := map[]];
    assert Apply(UndoDrop(j.nextIdx), db') == j.db;
    LoggedChange(j.(nextIdx := j.nextIdx + 1), UndoDrop(j.nextIdx), db', base0, base1);
  }

  lemma DropKeeps(j: Journal, n: int, order: seq<Blob>, base0: Db, base1: Db)
    requires Promises(j, base0, base1) && n in j.db && Enumerates(order, j.db[n])
    ensures Promises(AfterDrop(j, n, order), base0, base1)
    ensures AfterDrop(j, n, order).db == j.db - {n}
  {
    DelsKeep(j, n, order, base0, base1);
    DelsEmpty(j, n, order);
    var j1 := AfterDels(j, n, order);
    var db' := j1.db - {n};
    assert Apply(UndoCreate(n), db') == j1.db;
    LoggedChange(j1, UndoCreate(n), db', base0, base1);
  }

  /** One command, in any mode; base1 moves when a checkpoint begins. */
  ghost function Step(j: Journal, c: Cmd): Journal
    requires Legal(j, c) && (c == RollbackCkpt ==> Replays(j.check, j.db))
  {
    match c
    case Put(n, k, d) => AfterPut(j, n, k, d)
    case Del(n, k) => AfterDel(j, n, k)
    case Clear(n, order) => AfterDels(j, n, order)
    case Create => AfterCreate(j)
    case Drop(n, order) => AfterDrop(j, n, order)
    case BeginCkpt => if j.mode == InTransaction then j.(mode := InCheckpoint) else j
    case CommitCkpt => AfterCommitCkpt(j)
    case RollbackCkpt => AfterRollbackCkpt(j)
  }

  ghost function NextBase(j: Journal, c: Cmd, base1: Db): Db {
    if c == BeginCkpt && j.mode == InTransaction then j.db else base1
  }

  /** No command breaks the promise of either list. */
  lemma StepKeeps(j: Journal, c: Cmd, base0: Db, base1: Db)
    requires Promises(j, base0, base1) && Legal(j, c)
    ensures c == RollbackCkpt ==> Replays(j.check, j.db)
    ensures Promises(Step(j, c), base0, NextBase(j, c, base1))
    ensures c == RollbackCkpt && j.mode == InCheckpoint ==> Step(j, c).db == base1
  {
    match c
    case Put(n, k, d) => PutKeeps(j, n, k, d, base0, base1);
    case Del(n, k) => DelKeeps(j, n, k, base0, base1);
    case Clear(n, order) => DelsKeep(j, n, order, base0, base1);
    case Create => CreateKeeps(j, base0, base1);
    case Drop(n, order) => DropKeeps(j, n, order, base0, base1);
    case BeginCkpt =>
    case CommitCkpt =>
      if j.mode == InCheckpoint { Spliced(j.check, j.trans, j.db, base1, base0); }
    case RollbackCkpt =>
      if j.mode == InCheckpoint {
        ReplayIs(j.check, j.db, base1);
      } else {
        assert Restores(j.check, j.db, j.db);
      }
  }

  // ---------------------------------------------------------------- whole runs

  ghost function AfterBegin(j: Journal): Journal {
    if j.mode == TransNone then j.(mode := InTransaction) else j
  }

  /** memRbtreeRollback: the checkpoint's list, then the transaction's. */
  ghost function AfterRollback(j: Journal): Journal
    requires Replays(j.check, j.db) && Replays(j.trans, Replay(j.check, j.db))
  {
    Journal(Replay(j.trans, Replay(j.check, j.db)), j.nextIdx, TransNone, [], [])
  }

  ghost predicate Runs(j: Journal, cmds: seq<Cmd>, j': Journal)
    decreases |cmds|
  {
    if cmds == [] then j == j'
    else
      && Legal(j, cmds[0]) && (cmds[0] == RollbackCkpt ==> Replays(j.check, j.db))
      && Runs(Step(j, cmds[0]), cmds[1..], j')
  }

  lemma {:induction false} RunKeeps(j: Journal, cmds: seq<Cmd>, j': Journal, base0: Db, base1: Db) returns (base1': Db)
    requires Promises(j, base0, base1) && Runs(j, cmds, j')
    ensures Promises(j', base0, base1')
    ensures (forall i | 0 <= i < |cmds| :: !cmds[i].CommitCkpt? && !cmds[i].RollbackCkpt?) && j.mode == InCheckpoint
            ==> base1' == base1 && j'.mode == InCheckpoint
    ensures j'.mode == TransNone <==> j.mode == TransNone
    decreases |cmds|
  {
    if cmds == [] {
      base1' := base1;
    } else {
      StepKeeps(j, cmds[0], base0, base1);
      StepKeepsMode(j, cmds[0]);
      base1' := RunKeeps(Step(j, cmds[0]), cmds[1..], j', base0, NextBase(j, cmds[0], base1));
    }
  }

  lemma StepKeepsMode(j: Journal, c: Cmd)
    requires Legal(j, c) && (c == RollbackCkpt ==> Replays(j.check, j.db))
    ensures Step(j, c).mode == TransNone <==> j.mode == TransNone
    ensures !c.CommitCkpt? && !c.RollbackCkpt? && j.mode == InCheckpoint ==> Step(j, c).mode == InCheckpoint
  {
    match c
    case Clear(n, order) => DelsMode(j, n, order);
    case Drop(n, order) => DelsMode(j, n, order);
    case _ =>
  }

  lemma {:induction false} DelsMode(j: Journal, n: int, order: seq<Blob>)
    ensures AfterDels(j, n, order).mode == j.mode
    decreases |order|
  {
    if !(order == [] || n !in j.db || order[0] !in j.db[n]) {
      DelsMode(AfterDel(j, n, order[0]), n, order[1..]);
    }
  }

  /** After any run of a transaction, with any checkpoints inside it, rollback restores the tables of BeginTrans. */
  lemma RollbackRestores(j0: Journal, cmds: seq<Cmd>, j: Journal)
    requires WellFormed(j0) && j0.mode == TransNone && Runs(AfterBegin(j0), cmds, j)
    ensures Replays(j.check, j.db) && Replays(j.trans, Replay(j.check, j.db))
    ensures AfterRollback(j).db == j0.db && WellFormed(AfterRollback(j))
  {
    var base1 := RunKeeps(AfterBegin(j0), cmds, j, j0.db, j0.db);
    RollbackOf(j, j0.db, base1);
  }

  /** What each list is replayed from and to. */
  lemma RollbackPlan(j: Journal, base0: Db, base1: Db)
    requires Promises(j, base0, base1) && (j.mode == TransNone ==> j.db == base0)
    ensures var mid := if j.mode == InCheckpoint then base1 else j.db;
      Restores(j.check, j.db, mid) && Restores(j.trans, mid, base0)
  {}

  lemma RollbackOf(j: Journal, base0: Db, base1: Db)
    requires Promises(j, base0, base1) && (j.mode == TransNone ==> j.db == base0)
    ensures Replays(j.check, j.db) && Replays(j.trans, Replay(j.check, j.db))
    ensures AfterRollback(j).db == base0
  {
    if j.mode == InCheckpoint {
      ReplayIs(j.check, j.db, base1);
      ReplayIs(j.trans, base1, base0);
    } else {
      assert Restores(j.check, j.db, j.db);
      ReplayIs(j.check, j.db, j.db);
      assert j.mode == TransNone ==> Restores(j.trans, j.db, j.db);
      ReplayIs(j.trans, j.db, base0);
    }
  }

  /** After any run inside a checkpoint, rolling it back restores the tables of BeginCkpt. */
  lemma RollbackCkptRestores(j0: Journal, base0: Db, cmds: seq<Cmd>, j: Journal)
    requires j0.mode == InTransaction && Promises(j0, base0, base0) && Runs(Step(j0, BeginCkpt), cmds, j)
    requires forall i | 0 <= i < |cmds| :: !cmds[i].CommitCkpt? && !cmds[i].RollbackCkpt?
    ensures Replays(j.check, j.db) && AfterRollbackCkpt(j).db == j0.db
    ensures AfterRollbackCkpt(j).mode == InTransaction && AfterRollbackCkpt(j).trans == j.trans
  {
    StepKeeps(j0, BeginCkpt, base0, base0);
    var base1 := RunKeeps(Step(j0, BeginCkpt), cmds, j, base0, j0.db);
    StepKeeps(j, RollbackCkpt, base0, j0.db);
  }
}

/**
 * Rolling back while tables are held open for reading: row operations on them are refused, and the return codes that
 * say so are not looked at (btree_rb.c).
 */
module RbLocks {
  import opened Bytes
  import opened RbJournal

  ghost predicate IsRowOp(u: Undo) {
    u.UndoInsert? || u.UndoDelete?
  }

  /** What the replay asserts before an operation; a table is dropped only if no cursor is open on it. */
  ghost predicate Asserted(u: Undo, db: Db, locked: set<int>) {
    Applicable(u, db) && (u.UndoDrop? ==> u.tab !in locked)
  }

  /** A row operation on a locked table is refused. */
  ghost function ApplyUnlocked(u: Undo, db: Db, locked: set<int>): Db
    requires Asserted(u, db, locked)
  {
    if IsRowOp(u) && u.tab in locked then db else Apply(u, db)
  }

  /** Every assertion of the replay is met. */
  ghost predicate Replayable(log: seq<Undo>, db: Db, locked: set<int>)
    decreases |log|
  {
    log != [] ==> Asserted(log[0], db, locked) && Replayable(log[1..], ApplyUnlocked(log[0], db, locked), locked)
  }

  ghost function Replayed(log: seq<Undo>, db: Db, locked: set<int>): Db
    requires Replayable(log, db, locked)
    decreases |log|
  {
    if log == [] then db else Replayed(log[1..], ApplyUnlocked(log[0], db, locked), locked)
  }

  /** No locked table is to be dropped, and every row to be deleted from a locked table is in it now. */
  ghost predicate LockSafe(log: seq<Undo>, now: Db, locked: set<int>) {
    forall i | 0 <= i < |log| :: SafeOne(log[i], now, locked)
  }

  ghost predicate SafeOne(u: Undo, now: Db, locked: set<int>) {
    u.tab in locked ==> !u.UndoDrop? && (u.UndoDelete? ==> u.tab in now && u.key in now[u.tab])
  }

  /** The locked tables as they are now, the others as in db. */
  ghost function Mixed(db: Db, now: Db, locked: set<int>): Db {
    map n | n in db :: if n in locked && n in now then now[n] else db[n]
  }

  lemma LockSafeRest(log: seq<Undo>, now: Db, locked: set<int>)
    requires log != []
    ensures LockSafe(log, now, locked) <==> SafeOne(log[0], now, locked) && LockSafe(log[1..], now, locked)
  {
    if SafeOne(log[0], now, locked) && LockSafe(log[1..], now, locked) {
      forall i | 0 <= i < |log| ensures SafeOne(log[i], now, locked) {
        if i > 0 { assert SafeOne(log[1..][i - 1], now, locked); }
      }
    }
    if LockSafe(log, now, locked) {
      forall i | 0 <= i < |log[1..]| ensures SafeOne(log[1..][i], now, locked) {
        assert SafeOne(log[i + 1], now, locked);
      }
    }
  }

  /** One operation of a list that would restore the tables if nothing were locked. */
  lemma OneReplayed(u: Undo, db: Db, now: Db, locked: set<int>)
    requires Applicable(u, db) && locked <= db.Keys && locked <= now.Keys
    ensures Asserted(u, Mixed(db, now, locked), locked) <==> SafeOne(u, now, locked)
    ensures SafeOne(u, now, locked) ==>
      && locked <= Apply(u, db).Keys
      && ApplyUnlocked(u, Mixed(db, now, locked), locked) == Mixed(Apply(u, db), now, locked)
  {
    var cur := Mixed(db, now, locked);
    if SafeOne(u, now, locked) {
      var a, b := ApplyUnlocked(u, cur, locked), Mixed(Apply(u, db), now, locked);
      assert a.Keys == b.Keys;
      forall n | n in a ensures a[n] == b[n] {}
    }
  }

  /**
   * Replaying a list under locks meets every assertion if and only if the list is lock safe, and then leaves the locked
   * tables as they were when it began and restores the others.
   */
  lemma {:induction false} LockedReplay(log: seq<Undo>, db: Db, base: Db, now: Db, locked: set<int>)
    requires Restores(log, db, base) && locked <= db.Keys && locked <= now.Keys
    ensures Replayable(log, Mixed(db, now, locked), locked) <==> LockSafe(log, now, locked)
    ensures LockSafe(log, now, locked) ==>
      locked <= base.Keys && Replayed(log, Mixed(db, now, locked), locked) == Mixed(base, now, locked)
    decreases |log|
  {
    if log != [] {
      OneReplayed(log[0], db, now, locked);
      LockSafeRest(log, now, locked);
      if SafeOne(log[0], now, locked) {
        LockedReplay(log[1..], Apply(log[0], db), base, now, locked);
      }
    }
  }

  lemma MixedNow(db: Db, locked: set<int>)
    ensures Mixed(db, db, locked) == db
  {}

  /** A rollback under locks restores the tables exactly if the locked ones have not changed. */
  lemma RestoresExactly(base: Db, now: Db, locked: set<int>)
    requires locked <= base.Keys && locked <= now.Keys
    ensures Mixed(base, now, locked) == base <==> forall n | n in locked :: now[n] == base[n]
  {
    if Mixed(base, now, locked) == base {
      forall n | n in locked ensures now[n] == base[n] { assert Mixed(base, now, locked)[n] == now[n]; }
    }
    if forall n | n in locked :: now[n] == base[n] {
      assert Mixed(base, now, locked).Keys == base.Keys;
    }
  }

  /** No row operation of the list meets a lock. */
  ghost predicate NoneLocked(log: seq<Undo>, locked: set<int>) {
    forall i | 0 <= i < |log| :: IsRowOp(log[i]) ==> log[i].tab !in locked
  }

  /** Then the locked tables are among those the list leaves alone. */
  lemma {:induction false} LeftAlone(log: seq<Undo>, db: Db, base: Db, now: Db, locked: set<int>)
    requires Restores(log, db, base) && NoneLocked(log, locked) && LockSafe(log, now, locked) && locked <= db.Keys
    ensures locked <= base.Keys && forall n | n in locked :: base[n] == db[n]
    decreases |log|
  {
    if log != [] {
      LockSafeRest(log, now, locked);
      assert SafeOne(log[0], now, locked);
      assert IsRowOp(log[0]) ==> log[0].tab !in locked;
      forall i | 0 <= i < |log[1..]| ensures IsRowOp(log[1..][i]) ==> log[1..][i].tab !in locked {
        assert log[1..][i] == log[i + 1];
      }
      LeftAlone(log[1..], Apply(log[0], db), base, now, locked);
    }
  }

  /** Both lists replayed under locks, when their assertions hold. */
  lemma LockedRollback(j: Journal, base0: Db, base1: Db, locked: set<int>)
    requires Promises(j, base0, base1) && (j.mode == TransNone ==> j.db == base0) && locked <= j.db.Keys
    ensures LockSafe(j.check, j.db, locked) && LockSafe(j.trans, j.db, locked) <==>
      Replayable(j.check, j.db, locked) && Replayable(j.trans, Replayed(j.check, j.db, locked), locked)
    ensures LockSafe(j.check, j.db, locked) && LockSafe(j.trans, j.db, locked) ==>
      Replayed(j.trans, Replayed(j.check, j.db, locked), locked) == Mixed(base0, j.db, locked)
  {
    var mid := if j.mode == InCheckpoint then base1 else j.db;
    RollbackPlan(j, base0, base1);
    MixedNow(j.db, locked);
    LockedReplay(j.check, j.db, mid, j.db, locked);
    if LockSafe(j.check, j.db, locked) {
      LockedReplay(j.trans, mid, base0, j.db, locked);
    }
  }

  /** Without a row operation on a locked table, both lists restore what they promise. */
  lemma RollbackUnlocked(j: Journal, base0: Db, base1: Db, locked: set<int>)
    requires Promises(j, base0, base1) && (j.mode == TransNone ==> j.db == base0) && locked <= j.db.Keys
    requires LockSafe(j.check, j.db, locked) && LockSafe(j.trans, j.db, locked)
    ensures NoneLocked(j.check, locked) && NoneLocked(j.trans, locked) ==> Mixed(base0, j.db, locked) == base0
  {
    if NoneLocked(j.check, locked) && NoneLocked(j.trans, locked) {
      var mid := if j.mode == InCheckpoint then base1 else j.db;
      RollbackPlan(j, base0, base1);
      LeftAlone(j.check, j.db, mid, j.db, locked);
      LeftAlone(j.trans, mid, base0, j.db, locked);
      RestoresExactly(base0, j.db, locked);
    }
  }

  // ---------------------------------------------------------------- two runs

  const BEFORE: Db := map[2 := map[[7] := [1]]]

  ghost function Begun(): Journal {
    Journal(BEFORE, 3, InTransaction, [], [])
  }

  /** A row replaced, the table opened for reading, the transaction rolled back: the replacement stays. */
  lemma ReplacementStays()
    ensures Legal(Begun(), Put(2, [7], [9]))
    ensures var j := Step(Begun(), Put(2, [7], [9]));
      && j.db == map[2 := map[[7] := [9]]] && LockSafe(j.trans, j.db, {2})
      && Replayable(j.trans, j.db, {2}) && Replayed(j.trans, j.db, {2}) == j.db != BEFORE
  {
    var j := Step(Begun(), Put(2, [7], [9]));
    assert j.trans == [UndoInsert(2, [7], [1])];
    assert j.db[2] == map[[7] := [9]];
    assert j.db[2][[7]] == [9] && BEFORE[2][[7]] == [1];
    assert SafeOne(j.trans[0], j.db, {2});
    assert j.trans[1..] == [];
  }

  /** A row inserted and deleted again, the table opened for reading: the replay asks for a row that is not there. */
  lemma AssertionFails()
    ensures Legal(Begun(), Put(2, [8], [9])) && Legal(Step(Begun(), Put(2, [8], [9])), Del(2, [8]))
    ensures var j := Step(Step(Begun(), Put(2, [8], [9])), Del(2, [8]));
      j.db == BEFORE && !LockSafe(j.trans, j.db, {2}) && !Replayable(j.trans, j.db, {2})
  {
    var j1 := Step(Begun(), Put(2, [8], [9]));
    assert j1.trans == [UndoDelete(2, [8])];
    var j := Step(j1, Del(2, [8]));
    assert j.trans == [UndoInsert(2, [8], [9]), UndoDelete(2, [8])];
    assert [8] !in BEFORE[2];
    assert j.db[2] == BEFORE[2];
    assert j.trans[1..] == [UndoDelete(2, [8])];
    assert !SafeOne(j.trans[1], j.db, {2});
  }
}

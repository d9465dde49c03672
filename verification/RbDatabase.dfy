/** The in-memory back end: tables by number, and linked lists of rollback operations. */
module RbDatabase {
  import opened Bytes
  import opened RbShape
  import opened RbEntries
  import opened RbMemory
  import opened RbPlaces
  import opened RbTree
  import opened RbCursor
  import opened RbJournal
  import opened RbLocks

  /** One link of a rollback list. */
  datatype BtRollbackOp = BtRollbackOp(u: Undo, pNext: Ptr)

  type OpMemory = map<Ptr, BtRollbackOp>

  /** The links from p on are exactly ids, ending in a NULL pointer. */
  ghost predicate Chain(op: OpMemory, p: Ptr, ids: seq<Ptr>)
    decreases |ids|
  {
    if ids == [] then p == NULL
    else p == ids[0] && p != NULL && p in op && p !in ids[1..] && Chain(op, op[p].pNext, ids[1..])
  }

  function UndoAt(op: OpMemory, p: Ptr): Undo {
    if p in op then op[p].u else UndoDrop(0)
  }

  ghost function Undos(op: OpMemory, ids: seq<Ptr>): seq<Undo> {
    seq(|ids|, i requires 0 <= i < |ids| => UndoAt(op, ids[i]))
  }

  lemma UndosFrame(op: OpMemory, op': OpMemory, ids: seq<Ptr>)
    requires forall q | q in ids :: q in op && q in op' && op'[q].u == op[q].u
    ensures Undos(op', ids) == Undos(op, ids)
  {
    forall i | 0 <= i < |ids| ensures UndoAt(op', ids[i]) == UndoAt(op, ids[i]) {
      assert ids[i] in ids;
    }
  }

  lemma UndosPush(op: OpMemory, p: Ptr, ids: seq<Ptr>)
    ensures Undos(op, [p] + ids) == [UndoAt(op, p)] + Undos(op, ids)
  {
    forall i | 0 <= i < |ids| + 1
      ensures Undos(op, [p] + ids)[i] == ([UndoAt(op, p)] + Undos(op, ids))[i]
    {}
  }

  lemma UndosConcat(op: OpMemory, a: seq<Ptr>, b: seq<Ptr>)
    ensures Undos(op, a + b) == Undos(op, a) + Undos(op, b)
  {
    forall i | 0 <= i < |a| + |b|
      ensures Undos(op, a + b)[i] == (Undos(op, a) + Undos(op, b))[i]
    {}
  }

  lemma {:induction false} ChainIn(op: OpMemory, p: Ptr, ids: seq<Ptr>)
    requires Chain(op, p, ids)
    ensures forall i | 0 <= i < |ids| :: ids[i] in op && ids[i] != NULL
    decreases |ids|
  {
    if ids != [] { ChainIn(op, op[p].pNext, ids[1..]); }
  }

  lemma {:induction false} ChainFrame(op: OpMemory, op': OpMemory, p: Ptr, ids: seq<Ptr>)
    requires Chain(op, p, ids)
    requires forall q | q in ids :: q in op ==> q in op' && op'[q] == op[q]
    ensures Chain(op', p, ids)
    decreases |ids|
  {
    if ids != [] {
      assert ids[0] in ids;
      ChainFrame(op, op', op[p].pNext, ids[1..]);
    }
  }

  /** Redirecting the last link joins two lists. */
  lemma {:induction false} ChainSplice(op: OpMemory, a: Ptr, as_: seq<Ptr>, b: Ptr, bs: seq<Ptr>)
    requires Chain(op, a, as_) && Chain(op, b, bs) && as_ != []
    requires forall q | q in as_ :: q !in bs
    ensures var last := as_[|as_| - 1];
      last in op && Chain(op[last := op[last].(pNext := b)], a, as_ + bs)
    decreases |as_|
  {
    ChainIn(op, a, as_);
    var last := as_[|as_| - 1];
    var op' := op[last := op[last].(pNext := b)];
    assert (as_ + bs)[1..] == as_[1..] + bs;
    if |as_| == 1 {
      assert as_[1..] + bs == bs;
      ChainFrame(op, op', b, bs);
    } else {
      var rest := as_[1..];
      assert rest[|rest| - 1] == last && last in rest;
      ChainSplice(op, op[a].pNext, rest, b, bs);
    }
  }

  /** A new record in front of a list. */
  lemma ChainPush(op: OpMemory, head: Ptr, ids: seq<Ptr>, p: Ptr, u: Undo)
    requires Chain(op, head, ids) && p != NULL && p !in op
    ensures var op' := op[p := BtRollbackOp(u, head)];
      && Chain(op', head, ids) && Chain(op', p, [p] + ids)
      && Undos(op', ids) == Undos(op, ids) && Undos(op', [p] + ids) == [u] + Undos(op, ids)
  {
    var op' := op[p := BtRollbackOp(u, head)];
    ChainIn(op, head, ids);
    forall q | q in ids ensures q in op && q in op' && op'[q] == op[q] {
      var i :| 0 <= i < |ids| && ids[i] == q;
    }
    ChainFrame(op, op', head, ids);
    UndosFrame(op, op', ids);
    UndosPush(op', p, ids);
    assert ([p] + ids)[1..] == ids;
    assert p !in ids;
  }

  /** A record outside a list leaves the list alone. */
  lemma OtherPush(op: OpMemory, head: Ptr, ids: seq<Ptr>, p: Ptr, r: BtRollbackOp)
    requires Chain(op, head, ids) && p !in op
    ensures Chain(op[p := r], head, ids) && Undos(op[p := r], ids) == Undos(op, ids)
    ensures p !in ids
  {
    ChainIn(op, head, ids);
    forall q | q in ids ensures q in op && q in op[p := r] && op[p := r][q] == op[q] {
      var i :| 0 <= i < |ids| && ids[i] == q;
    }
    ChainFrame(op, op[p := r], head, ids);
    UndosFrame(op, op[p := r], ids);
  }

  datatype Rc = SQLITE_OK | SQLITE_LOCKED | SQLITE_ERROR

  lemma SplicedUndos(op: OpMemory, op': OpMemory, a: seq<Ptr>, b: seq<Ptr>, ha: Ptr, hb: Ptr)
    requires Chain(op, ha, a) && Chain(op, hb, b)
    requires forall p | p in op :: p in op' && op'[p].u == op[p].u
    ensures Undos(op', a + b) == Undos(op, a) + Undos(op, b)
  {
    ChainIn(op, ha, a);
    ChainIn(op, hb, b);
    forall q | q in a + b ensures q in op && q in op' && op'[q].u == op[q].u {
      var i :| 0 <= i < |a + b| && (a + b)[i] == q;
      if i < |a| { assert a[i] in op; } else { assert b[i - |a|] in op; }
    }
    UndosFrame(op, op', a + b);
    UndosConcat(op, a, b);
  }

  /** Entry i of a table is a row of it. */
  lemma RowAt(tree: BtRbTree, i: nat)
    requires tree.Valid() && i < |tree.Entries()|
    ensures var e := tree.Entries()[i];
      && e.id in tree.node && tree.node[e.id].key == e.key && tree.node[e.id].data == e.data
      && e.key in tree.Table() && tree.Table()[e.key] == e.data
  {
    RecordAt(tree.tree, tree.node, tree.pHead, tree.Entries(), i);
    ContentAt(tree.Entries(), i);
  }

  lemma UndosHead(op: OpMemory, p: Ptr, ids: seq<Ptr>)
    requires Chain(op, p, ids) && ids != []
    ensures p in op && Undos(op, ids) == [op[p].u] + Undos(op, ids[1..])
    ensures Undos(op, ids)[1..] == Undos(op, ids[1..])
  {
    assert ids == [p] + ids[1..];
    UndosPush(op, p, ids[1..]);
  }

  lemma DropDb(j: Journal, n: int, order: seq<Blob>)
    requires n in j.db && Enumerates(order, j.db[n])
    ensures AfterDrop(j, n, order).db == j.db - {n}
    ensures AfterDrop(j, n, order).nextIdx == j.nextIdx && AfterDrop(j, n, order).mode == j.mode
  {
    DelsEmpty(j, n, order);
  }

  lemma LogApart(j: Journal, u: Undo, db: Db, nextIdx: int)
    ensures Log(j.(db := db, nextIdx := nextIdx), u) == Log(j, u).(db := db, nextIdx := nextIdx)
  {}

  lemma RecordOf(tree: BtRbTree, c: Ctx<Ptr>, t: Tree<Ptr>)
    requires tree.Valid() && tree.Is(c, t, tree.Entries()) && Plug(c, t) == tree.tree && t.Node?
    ensures t.id in tree.node && tree.node[t.id].key == t.key && tree.node[t.id].data == t.data
    ensures t.key in tree.Table() && tree.Table()[t.key] == t.data
  {
    ChildGuards(c, t, tree.node, tree.pHead);
    Around3(c, t);
    ContentRemove(Prior(c, t), EntryOf(t), Later(c, t));
  }

  class Rbtree {
    var tblHash: map<int, BtRbTree>
    var nextIdx: int
    var eTransState: TransState
    var op: OpMemory
    var pTransRollback: Ptr
    var pCheckRollback: Ptr
    var pCheckRollbackTail: Ptr
    /** Tables that some cursor holds open for reading only. */
    var readLocked: set<int>
    ghost var transIds: seq<Ptr>
    ghost var checkIds: seq<Ptr>

    ghost predicate ListsOk()
      reads this
    {
      && Chain(op, pTransRollback, transIds) && Chain(op, pCheckRollback, checkIds)
      && (forall p | p in checkIds :: p !in transIds)
      && (checkIds != [] ==> pCheckRollbackTail == checkIds[|checkIds| - 1])
    }

    ghost predicate TablesOk()
      reads this, tblHash.Values
    {
      (forall n | n in tblHash :: tblHash[n].Valid()) && TablesApart()
    }

    ghost predicate TablesApart()
      reads this
    {
      forall n, k | n in tblHash && k in tblHash && n != k :: tblHash[n] != tblHash[k]
    }

    ghost function Contents(): Db
      reads this, tblHash.Values
    {
      map n | n in tblHash :: tblHash[n].Table()
    }

    ghost function State(): Journal
      reads this, tblHash.Values
    {
      Journal(Contents(), nextIdx, eTransState, Undos(op, transIds), Undos(op, checkIds))
    }

    ghost predicate Valid()
      reads this, tblHash.Values
    {
      ListsOk() && TablesOk()
    }

    twostate predicate SameLists()
      reads this
    {
      && op == old(op) && pTransRollback == old(pTransRollback) && pCheckRollback == old(pCheckRollback)
      && pCheckRollbackTail == old(pCheckRollbackTail) && transIds == old(transIds) && checkIds == old(checkIds)
    }

    twostate lemma OneTableChanged(i: int)
      requires i in tblHash && tblHash == old(tblHash) && TablesApart()
      requires forall n | n in tblHash && n != i :: unchanged(tblHash[n])
      ensures Contents() == old(Contents())[i := tblHash[i].Table()]
      ensures old(TablesOk()) && tblHash[i].Valid() ==> TablesOk()
    {
      var a, b := Contents(), old(Contents())[i := tblHash[i].Table()];
      forall n | n in b ensures n in a && a[n] == b[n] {
        if n != i { assert tblHash[n].Table() == old(tblHash[n].Table()); }
      }
      assert a.Keys == b.Keys;
    }

    constructor ()
      ensures Valid() && eTransState == TransNone && State() == Journal(map[2 := map[]], 3, TransNone, [], [])
      ensures readLocked == {}
    {
      var master := new BtRbTree();
      tblHash := map[2 := master];
      nextIdx, eTransState, op, readLocked := 3, TransNone, map[], {};
      pTransRollback, pCheckRollback, pCheckRollbackTail := NULL, NULL, NULL;
      transIds, checkIds := [], [];
    }

    /** btreeCreateTable: an empty table under an unused number. */
    method BtreeCreateTable(n: int)
      requires Valid() && n !in tblHash
      modifies `tblHash
      ensures Valid() && fresh(tblHash.Values - old(tblHash.Values))
      ensures State() == old(State()).(db := old(Contents())[n := map[]]) && tblHash.Keys == old(tblHash.Keys) + {n}
    {
      var t := new BtRbTree();
      ghost var was := Contents();
      tblHash := tblHash[n := t];
      assert Contents() == was[n := map[]];
    }

    /** btreeLogRollbackOp: puts the operation at the head of the current list. */
    method LogRollbackOp(u: Undo)
      requires ListsOk() && (eTransState == InTransaction || eTransState == InCheckpoint)
      modifies `op, `pTransRollback, `pCheckRollback, `pCheckRollbackTail, `transIds, `checkIds
      ensures ListsOk()
      ensures Undos(op, transIds) ==
        if eTransState == InTransaction then [u] + old(Undos(op, transIds)) else old(Undos(op, transIds))
      ensures Undos(op, checkIds) ==
        if eTransState == InCheckpoint then [u] + old(Undos(op, checkIds)) else old(Undos(op, checkIds))
    {
      FreshAddress(op.Keys);
      var p: Ptr :| p != NULL && p !in op;
      ChainIn(op, pTransRollback, transIds);
      ChainIn(op, pCheckRollback, checkIds);
      ChainPush(op, pTransRollback, transIds, p, u);
      ChainPush(op, pCheckRollback, checkIds, p, u);
      if eTransState == InTransaction {
        OtherPush(op, pCheckRollback, checkIds, p, BtRollbackOp(u, pTransRollback));
        op := op[p := BtRollbackOp(u, pTransRollback)];
        pTransRollback, transIds := p, [p] + transIds;
      }
      if eTransState == InCheckpoint {
        OtherPush(op, pTransRollback, transIds, p, BtRollbackOp(u, pCheckRollback));
        op := op[p := BtRollbackOp(u, pCheckRollback)];
        if pCheckRollback == NULL { pCheckRollbackTail := p; }
        pCheckRollback, checkIds := p, [p] + checkIds;
      }
    }
  
    /** Logs an operation, unless a rollback is being replayed. */
    method LogUnlessReplaying(u: Undo)
      requires ListsOk() && eTransState != TransNone
      modifies `op, `pTransRollback, `pCheckRollback, `pCheckRollbackTail, `transIds, `checkIds
      ensures ListsOk() && State() == Log(old(State()), u) && (eTransState == InRollback ==> SameLists())
    {
      if eTransState != InRollback {
        LogRollbackOp(u);
      }
    }

    method InsertRow(pCur: RbtCursor, iTab: int, key: Blob, data: Blob, match_: int, ghost c: Ctx<Ptr>)
      requires Valid() && eTransState != TransNone && iTab in tblHash && pCur.pTree == tblHash[iTab]
      requires pCur.pTree.Is(c, Leaf, pCur.pTree.Entries()) && Plug(c, Leaf) == pCur.pTree.tree
      requires pCur.pNode == Parent(c) && Around(Before(c), key, After(c))
      requires match_ == -1 ==> c.Top? || c.InRight?
      requires match_ == 1 ==> c.InLeft?
      requires match_ == -1 || match_ == 1
      modifies this, pCur`pNode, tblHash[iTab]
      ensures Valid() && tblHash == old(tblHash) && readLocked == old(readLocked)
      ensures State() == AfterPut(old(State()), iTab, key, data) && (eTransState == InRollback ==> SameLists())
    {
      pCur.InsertNode(key, data, match_, c);
      OneTableChanged(iTab);
      LogUnlessReplaying(UndoDelete(iTab, key));
    }

    method ReplaceRow(pCur: RbtCursor, iTab: int, data: Blob, ghost c: Ctx<Ptr>, ghost t: Tree<Ptr>)
      requires Valid() && eTransState != TransNone && iTab in tblHash && pCur.pTree == tblHash[iTab]
      requires pCur.pTree.Is(c, t, pCur.pTree.Entries()) && Plug(c, t) == pCur.pTree.tree
      requires t.Node? && t.id == pCur.pNode
      modifies this, tblHash[iTab]
      ensures Valid() && tblHash == old(tblHash) && readLocked == old(readLocked)
      ensures State() == AfterPut(old(State()), iTab, t.key, data) && (eTransState == InRollback ==> SameLists())
    {
      RecordOf(pCur.pTree, c, t);
      LogUnlessReplaying(UndoInsert(iTab, pCur.pTree.node[pCur.pNode].key, pCur.pTree.node[pCur.pNode].data));
      pCur.ReplaceData(data, c, t);
      OneTableChanged(iTab);
    }

    /** memRbtreeInsert: adds a row, or replaces the data of an existing key, and logs how to undo it. */
    method Insert(pCur: RbtCursor, iTab: int, key: Blob, data: Blob) returns (rc: Rc)
      requires Valid() && eTransState != TransNone && iTab in tblHash && pCur.pTree == tblHash[iTab]
      modifies this, pCur, tblHash[iTab]
      ensures Valid() && tblHash == old(tblHash) && readLocked == old(readLocked)
      ensures rc == (if iTab in readLocked then SQLITE_LOCKED else SQLITE_OK)
      ensures eTransState == InRollback ==> SameLists()
      ensures State() == if rc == SQLITE_OK then AfterPut(old(State()), iTab, key, data) else old(State())
    {
      if iTab in readLocked { return SQLITE_LOCKED; }
      rc := SQLITE_OK;
      var match_;
      ghost var c, t;
      match_, c, t := pCur.Moveto(key);
      if match_ != 0 {
        InsertRow(pCur, iTab, key, data, match_, c);
      } else {
        ReplaceRow(pCur, iTab, data, c, t);
      }
    }

    /** One round of clearing: log the row of a childless node and free the node. */
    method ClearOne(pTree: BtRbTree, n: int, pNode: Ptr, ghost c: Ctx<Ptr>, ghost t: Tree<Ptr>) returns (pTmp: Ptr)
      requires ListsOk() && eTransState != TransNone && TablesApart() && n in tblHash && pTree == tblHash[n]
      requires pTree.Pruned(c, t) && t.Node? && t.id == pNode && t.left.Leaf? && t.right.Leaf?
      modifies this`op, this`pTransRollback, this`pCheckRollback, this`pCheckRollbackTail, this`transIds, this`checkIds
      modifies pTree`node, pTree`tree
      ensures eTransState == InRollback ==> SameLists()
      ensures ListsOk() && t.key in old(State()).db[n] && State() == AfterDel(old(State()), n, t.key)
      ensures pTmp == Parent(c) && (c.Top? <==> pTmp == NULL)
      ensures pTree.tree == Plug(c, Leaf) && (if c.Top? then pTree.tree == Leaf else pTree.Pruned(c, Leaf))
      ensures pTree.node.Keys == Ids(pTree.tree)
      ensures |pTree.Entries()| < |old(pTree.Entries())|
    {
      ChildGuards(c, t, pTree.node, pTree.pHead);
      LogUnlessReplaying(UndoInsert(n, pTree.node[pNode].key, pTree.node[pNode].data));
      pTmp := pTree.PruneLeaf(pNode, c, t);
      ContentRemove(Prior(c, t), EntryOf(t), Later(c, t));
      OneTableChanged(n);
    }

    /** Rows removed so far from table n, starting from state j0. */
    ghost predicate Cleared(j0: Journal, n: int, order: seq<Blob>)
      reads this, tblHash.Values
    {
      && ListsOk() && TablesApart() && n in tblHash && eTransState != TransNone
      && Clearing(j0, n, order, State())
    }

    method ClearNext(pTree: BtRbTree, n: int, from: Ptr, ghost c0: Ctx<Ptr>, ghost t0: Tree<Ptr>,
                     ghost j0: Journal, ghost order: seq<Blob>)
      returns (pNode: Ptr, ghost c: Ctx<Ptr>, ghost t: Tree<Ptr>, ghost order': seq<Blob>)
      requires Cleared(j0, n, order) && pTree == tblHash[n]
      requires pTree.Pruned(c0, t0) && t0.Node? && t0.id == from
      modifies this`op, this`pTransRollback, this`pCheckRollback, this`pCheckRollbackTail, this`transIds, this`checkIds
      modifies pTree`node, pTree`tree
      ensures Cleared(j0, n, order') && (eTransState == InRollback ==> SameLists())
      ensures pNode != NULL ==> pTree.Pruned(c, t) && t.Node? && t.id == pNode
      ensures pNode == NULL ==> pTree.tree == Leaf && pTree.node.Keys == {}
      ensures |pTree.Entries()| < |old(pTree.Entries())|
    {
      pNode, c, t := pTree.ToChildless(from, c0, t0);
      ghost var j1 := State();
      var pTmp := ClearOne(pTree, n, pNode, c, t);
      ClearingStep(j0, n, order, j1, t.key);
      order' := order + [t.key];
      pNode := pTmp;
      if !c.Top? {
        MoveUp(c, Leaf, pTree.node, pTree.pHead, pTree.Entries());
        c, t := c.up, Fill(c, Leaf);
        ChildGuards(c, t, pTree.node, pTree.pHead);
      }
    }

    method EmptyHead(pTree: BtRbTree, n: int, ghost j0: Journal, ghost order: seq<Blob>)
      requires Cleared(j0, n, order) && pTree == tblHash[n] && pTree.tree == Leaf && pTree.node.Keys == {}
      modifies pTree`pHead
      ensures State() == AfterDels(j0, n, order) && Enumerates(order, j0.db[n]) && pTree.Valid()
    {
      pTree.pHead := NULL;
      OneTableChanged(n);
      PartlyDone(order, j0.db[n]);
    }

    /** memRbtreeClearTable: frees the nodes leaf by leaf, logging every row, and empties the table. */
    method ClearTable(n: int) returns (ghost order: seq<Blob>)
      requires Valid() && eTransState != TransNone && n in tblHash
      modifies this`op, this`pTransRollback, this`pCheckRollback, this`pCheckRollbackTail, this`transIds, this`checkIds
      modifies tblHash[n]
      ensures Valid() && Enumerates(order, old(State()).db[n]) && (eTransState == InRollback ==> SameLists())
      ensures State() == AfterDels(old(State()), n, order) && tblHash[n].Entries() == []
    {
      var pTree := tblHash[n];
      ghost var j0 := State();
      ghost var c, t := Top, pTree.tree;
      order := [];
      var pNode := pTree.pHead;
      HoleGuards(c, t, pTree.node, pTree.pHead);
      while pNode != NULL
        invariant Cleared(j0, n, order) && (eTransState == InRollback ==> SameLists())
        invariant pNode != NULL ==> pTree.Pruned(c, t) && t.Node? && t.id == pNode
        invariant pNode == NULL ==> pTree.tree == Leaf && pTree.node.Keys == {}
        decreases |pTree.Entries()|
      {
        pNode, c, t, order := ClearNext(pTree, n, pNode, c, t, j0, order);
      }
      EmptyHead(pTree, n, j0, order);
    }
  
    /** memRbtreeDelete: removes the cursor's row, if it has one, and logs how to bring it back. */
    method Delete(pCur: RbtCursor, iTab: int, ghost i: nat) returns (rc: Rc)
      requires Valid() && eTransState != TransNone && iTab in tblHash && pCur.pTree == tblHash[iTab]
      requires pCur.pNode != NULL ==> pCur.On(i)
      modifies this, pCur, tblHash[iTab]
      ensures Valid() && tblHash == old(tblHash) && readLocked == old(readLocked)
      ensures rc == (if iTab in readLocked then SQLITE_LOCKED else SQLITE_OK)
      ensures eTransState == InRollback ==> SameLists()
      ensures rc == SQLITE_LOCKED || old(pCur.pNode) == NULL ==> State() == old(State())
      ensures rc == SQLITE_OK && old(pCur.pNode) != NULL ==>
        var k := old(pCur.pTree.Entries())[i].key;
        k in old(State()).db[iTab] && State() == AfterDel(old(State()), iTab, k)
    {
      if iTab in readLocked { return SQLITE_LOCKED; }
      rc := SQLITE_OK;
      if pCur.pNode == NULL { return; }
      RowAt(pCur.pTree, i);
      LogUnlessReplaying(UndoInsert(iTab, pCur.pTree.node[pCur.pNode].key, pCur.pTree.node[pCur.pNode].data));
      pCur.Delete(i);
      OneTableChanged(iTab);
    }

    method TakeNumber() returns (n: int)
      requires Valid()
      modifies `nextIdx
      ensures n == old(nextIdx) && Valid() && State() == old(State()).(nextIdx := n + 1)
    {
      ghost var was := Contents();
      n := nextIdx;
      nextIdx := nextIdx + 1;
      assert Contents() == was;
    }

    /** memRbtreeCreateTable: the next number, never used before. */
    method CreateTable() returns (n: int)
      requires Valid() && eTransState != TransNone && WellFormed(State())
      modifies this
      ensures Valid() && n == old(nextIdx) && State() == AfterCreate(old(State())) && readLocked == old(readLocked)
      ensures fresh(tblHash.Values - old(tblHash.Values))
    {
      assert nextIdx !in Contents();
      n := TakeNumber();
      BtreeCreateTable(n);
      LogUnlessReplaying(UndoDrop(n));
      LogApart(old(State()), UndoDrop(n), Contents(), nextIdx);
    }

    /** memRbtreeDropTable: clears the table, then forgets it. */
    method DropTable(n: int) returns (ghost order: seq<Blob>)
      requires Valid() && eTransState != TransNone && n in tblHash
      modifies this, tblHash[n]
      ensures Valid() && Enumerates(order, old(State()).db[n]) && State() == AfterDrop(old(State()), n, order)
      ensures tblHash == old(tblHash) - {n} && readLocked == old(readLocked)
      ensures eTransState == InRollback ==> SameLists()
    {
      order := ClearTable(n);
      ghost var was := Contents();
      tblHash := tblHash - {n};
      assert Contents() == was - {n};
      LogUnlessReplaying(UndoCreate(n));
    }

    method BeginTrans() returns (rc: Rc)
      requires Valid()
      modifies `eTransState
      ensures Valid() && State() == AfterBegin(old(State()))
      ensures rc == if old(eTransState) == TransNone then SQLITE_OK else SQLITE_ERROR
    {
      if eTransState != TransNone { return SQLITE_ERROR; }
      eTransState := InTransaction;
      rc := SQLITE_OK;
    }

    method Commit()
      requires Valid()
      modifies `pTransRollback, `pCheckRollback, `pCheckRollbackTail, `eTransState, `transIds, `checkIds
      ensures Valid() && State() == old(State()).(trans := [], check := [], mode := TransNone)
    {
      pTransRollback, pCheckRollback, pCheckRollbackTail := NULL, NULL, NULL;
      eTransState := TransNone;
      transIds, checkIds := [], [];
    }

    method BeginCkpt() returns (rc: Rc)
      requires Valid() && WellFormed(State())
      modifies `eTransState
      ensures Valid() && State() == Step(old(State()), Cmd.BeginCkpt)
      ensures rc == if old(eTransState) == InTransaction then SQLITE_OK else SQLITE_ERROR
    {
      if eTransState != InTransaction { return SQLITE_ERROR; }
      assert pCheckRollback == NULL;
      eTransState := InCheckpoint;
      rc := SQLITE_OK;
    }

    /** The checkpoint's list is linked in front of the transaction's through its tail pointer. */
    method CommitCkpt()
      requires Valid()
      modifies `op, `pTransRollback, `pCheckRollback, `pCheckRollbackTail, `eTransState, `transIds, `checkIds
      ensures Valid() && State() == AfterCommitCkpt(old(State()))
    {
      if eTransState == InCheckpoint {
        if pCheckRollback != NULL {
          SpliceLists();
        }
        eTransState := InTransaction;
      }
    }

    method SpliceLists()
      requires Valid() && pCheckRollback != NULL
      modifies `op, `pTransRollback, `pCheckRollback, `pCheckRollbackTail, `transIds, `checkIds
      ensures Valid() && checkIds == [] && pCheckRollback == NULL
      ensures State() == old(State()).(trans := old(State()).check + old(State()).trans, check := [])
    {
      ghost var op0 := op;
      ChainSplice(op, pCheckRollback, checkIds, pTransRollback, transIds);
      op := op[pCheckRollbackTail := op[pCheckRollbackTail].(pNext := pTransRollback)];
      SplicedUndos(op0, op, checkIds, transIds, pCheckRollback, pTransRollback);
      pTransRollback := pCheckRollback;
      pCheckRollback := NULL;
      pCheckRollbackTail := NULL;
      transIds, checkIds := checkIds + transIds, [];
    }
  
    /** Replays one rollback operation; a row operation on a read-locked table is refused. */
    method ReplayOne(u: Undo)
      requires Valid() && eTransState == InRollback && Asserted(u, Contents(), readLocked)
      modifies this, tblHash.Values
      ensures Valid() && Contents() == ApplyUnlocked(u, old(Contents()), old(readLocked))
      ensures SameLists() && eTransState == InRollback && nextIdx == old(nextIdx) && readLocked == old(readLocked)
      ensures fresh(tblHash.Values - old(tblHash.Values))
    {
      match u
      case UndoInsert(n, key, data) => ReplayInsert(n, key, data);
      case UndoDelete(n, key) => ReplayDelete(n, key);
      case UndoCreate(n) => BtreeCreateTable(n);
      case UndoDrop(n) =>
        ghost var order := DropTable(n);
        DropDb(old(State()), n, order);
    }

    method ReplayInsert(n: int, key: Blob, data: Blob)
      requires Valid() && eTransState == InRollback && n in tblHash
      modifies this, tblHash[n]
      ensures Valid() && tblHash == old(tblHash)
      ensures Contents() == if n in readLocked then old(Contents()) else old(Contents())[n := old(Contents())[n][key := data]]
      ensures SameLists() && eTransState == InRollback && nextIdx == old(nextIdx) && readLocked == old(readLocked)
    {
      var cur := new RbtCursor(tblHash[n]);
      var rc := Insert(cur, n, key, data);
    }

    method ReplayDelete(n: int, key: Blob)
      requires Valid() && eTransState == InRollback && n in tblHash && key in Contents()[n]
      modifies this, tblHash[n]
      ensures Valid() && tblHash == old(tblHash)
      ensures Contents() == if n in readLocked then old(Contents()) else old(Contents())[n := old(Contents())[n] - {key}]
      ensures SameLists() && eTransState == InRollback && nextIdx == old(nextIdx) && readLocked == old(readLocked)
    {
      var cur := new RbtCursor(tblHash[n]);
      var res;
      ghost var c, t;
      res, c, t := cur.Moveto(key);
      EntryAt(c, t, cur.pTree.Entries());
      var rc := Delete(cur, n, |Prior(c, t)|);
    }

    /**
     * execute_rollback_list: replays a list from its head. The list restores base from db; the tables are those of db,
     * but for the read-locked ones, which are as they are now.
     */
    method ExecuteRollbackList(pList: Ptr, ghost ids: seq<Ptr>, ghost db: Db, ghost base: Db, ghost now: Db)
      requires Valid() && eTransState == InRollback && Chain(op, pList, ids)
      requires Restores(Undos(op, ids), db, base) && LockSafe(Undos(op, ids), now, readLocked)
      requires readLocked <= db.Keys && readLocked <= now.Keys && Contents() == Mixed(db, now, readLocked)
      modifies this, tblHash.Values
      ensures Valid() && readLocked <= base.Keys && Contents() == Mixed(base, now, readLocked)
      ensures SameLists() && eTransState == InRollback && nextIdx == old(nextIdx) && readLocked == old(readLocked)
      ensures fresh(tblHash.Values - old(tblHash.Values))
    {
      var p := pList;
      ghost var rest, d := ids, db;
      while p != NULL
        invariant Valid() && Chain(op, p, rest) && SameLists() && eTransState == InRollback
        invariant Restores(Undos(op, rest), d, base) && LockSafe(Undos(op, rest), now, readLocked)
        invariant readLocked <= d.Keys && Contents() == Mixed(d, now, readLocked)
        invariant nextIdx == old(nextIdx) && readLocked == old(readLocked)
        invariant fresh(tblHash.Values - old(tblHash.Values))
        decreases |rest|
      {
        UndosHead(op, p, rest);
        LockSafeRest(Undos(op, rest), now, readLocked);
        OneReplayed(op[p].u, d, now, readLocked);
        d := Apply(op[p].u, d);
        ReplayOne(op[p].u);
        p, rest := op[p].pNext, rest[1..];
      }
    }

    /** Moves to another transaction state; tables and lists stay. */
    method Enter(state: TransState)
      requires Valid()
      modifies `eTransState
      ensures eTransState == state && Valid() && State() == old(State()).(mode := state) && SameLists()
    {
      ghost var was := Contents();
      eTransState := state;
      assert Contents() == was;
    }

    /** memRbtreeRollback: undoes the checkpoint, then the transaction, but for the tables held open for reading. */
    method Rollback(ghost base0: Db, ghost base1: Db)
      requires Valid() && Promises(State(), base0, base1) && (eTransState == TransNone ==> Contents() == base0)
      requires readLocked <= tblHash.Keys
      requires LockSafe(State().check, Contents(), readLocked) && LockSafe(State().trans, Contents(), readLocked)
      modifies this, tblHash.Values
      ensures Valid() && State() == Journal(Mixed(base0, old(Contents()), readLocked), old(nextIdx), TransNone, [], [])
      ensures old(NoneLocked(State().check, readLocked) && NoneLocked(State().trans, readLocked)) ==> Contents() == base0
      ensures fresh(tblHash.Values - old(tblHash.Values)) && readLocked == old(readLocked)
    {
      ghost var now := Contents();
      ghost var mid := if eTransState == InCheckpoint then base1 else now;
      RollbackPlan(State(), base0, base1);
      RollbackUnlocked(State(), base0, base1, readLocked);
      MixedNow(now, readLocked);
      Enter(InRollback);
      ExecuteRollbackList(pCheckRollback, checkIds, now, mid, now);
      ExecuteRollbackList(pTransRollback, transIds, mid, base0, now);
      Commit();
    }

    method DropCheckpointList()
      requires Valid()
      modifies `pCheckRollback, `pCheckRollbackTail, `checkIds
      ensures Valid() && State() == old(State()).(check := [])
    {
      ghost var was := Contents();
      pCheckRollback, pCheckRollbackTail := NULL, NULL;
      checkIds := [];
      assert Contents() == was;
    }

    /** memRbtreeRollbackCkpt: undoes the checkpoint only. */
    method RollbackCkpt(ghost base0: Db, ghost base1: Db)
      requires Valid() && Promises(State(), base0, base1)
      requires readLocked <= tblHash.Keys && LockSafe(State().check, Contents(), readLocked)
      modifies this, tblHash.Values
      ensures Valid() && readLocked == old(readLocked)
      ensures State() ==
        if old(eTransState) == InCheckpoint
        then old(State()).(db := Mixed(base1, old(Contents()), readLocked), check := [], mode := InTransaction) else old(State())
      ensures old(eTransState) == InCheckpoint && old(NoneLocked(State().check, readLocked)) ==> Contents() == base1
    {
      if eTransState != InCheckpoint { return; }
      ghost var now := Contents();
      MixedNow(now, readLocked);
      if NoneLocked(State().check, readLocked) {
        LeftAlone(State().check, now, base1, now, readLocked);
        RestoresExactly(base1, now, readLocked);
      }
      Enter(InRollback);
      ExecuteRollbackList(pCheckRollback, checkIds, now, base1, now);
      DropCheckpointList();
      Enter(InTransaction);
    }
  }
}

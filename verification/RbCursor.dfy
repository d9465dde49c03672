/** Cursors on an in-memory table: searching, stepping, inserting and deleting. */
module RbCursor {
  import opened Bytes
  import opened RbShape
  import opened RbEntries
  import opened RbMemory
  import opened RbPlaces
  import opened RbTree

  datatype Skip = SkipNone | SkipNext | SkipPrev

  /** The table of cursor steps taken by a search that ends without a match. */
  ghost predicate Between(s: Entries, i: nat, key: Blob) {
    i <= |s| && Around(s[..i], key, s[i..])
  }

  lemma FreshAddress(used: set<Ptr>)
    ensures exists p: Ptr :: p != NULL && p !in used
  {
    var p := AboveAll(used);
    assert p + 1 !in used;
  }

  lemma AboveAll(s: set<Ptr>) returns (p: Ptr)
    ensures forall q | q in s :: q <= p
    decreases s
  {
    if s == {} {
      p := 0;
    } else {
      var q :| q in s;
      var r := AboveAll(s - {q});
      assert forall x | x in s :: x == q || x in s - {q};
      p := if q <= r then r else q;
    }
  }

  lemma SearchEnds(c: Ctx<Ptr>, t: Tree<Ptr>, s: Entries, key: Blob, res: int)
    requires InOrder(Plug(c, t)) == s && Sorted(s)
    requires if res == 0 then t.Node? && t.key == key else t.Leaf? && Around(Before(c), key, After(c))
    ensures res == 0 <==> key in Content(s)
  {
    if res == 0 {
      Around3(c, t);
      ContentRemove(Prior(c, t), EntryOf(t), Later(c, t));
    } else {
      PlugInOrder(c, t);
      assert Before(c) + [] == Before(c);
      NotAround(Before(c), key, After(c));
    }
  }

  lemma PlantedFault(c: Ctx<Ptr>, tree: Tree<Ptr>, p: Ptr, key: Blob, data: Blob)
    requires RedBlack(tree) && Plug(c, Leaf) == tree
    ensures InsertFault(c, NewNode(p, key, data))
  {
    PlugRedBlack<Ptr>(c, Leaf);
  }

  lemma InsertedNodes(tree: Tree<Ptr>, tree': Tree<Ptr>, c: Ctx<Ptr>, e: Entry<Ptr>)
    requires InOrder(tree) == Before(c) + After(c)
    requires InOrder(tree') == Before(c) + [e] + After(c)
    ensures Ids(tree') == Ids(tree) + {e.id}
  {
    IdsInOrder(tree);
    IdsInOrder(tree');
    IdsWith(Before(c), e, After(c));
  }

  lemma SizeOfRight(c: Ctx<Ptr>, t: Tree<Ptr>)
    requires t.Node? && t.right.Node?
    ensures |Later(c, t)| > 0
  {}

  /** The rows of s without row i. */
  ghost predicate Rest(s: Entries, i: nat, r: Entries) {
    i < |s| && SameRows(r, s[..i] + s[i + 1..])
  }

  lemma SuccessorRows(s: Entries, i: nat, p: Ptr)
    requires i + 1 < |s|
    ensures var r := s[..i] + [Entry(p, s[i + 1].key, s[i + 1].data)] + s[i + 2..];
      Rest(s, i, r) && r[i].id == p
  {}

  lemma OuterRows(s: Entries, i: nat)
    requires i < |s|
    ensures var r := s[..i] + s[i + 1..];
      && Rest(s, i, r)
      && (i + 1 < |s| ==> r[i].id == s[i + 1].id) && (i + 1 == |s| && i > 0 ==> r[i - 1].id == s[i - 1].id)
  {}

  /** A tree whose entries are s without entry i is a sorted table without that key. */
  lemma DeletedTable(s: Entries, r: Entries, i: nat)
    requires Sorted(s) && i < |s| && Rest(s, i, r)
    ensures Sorted(r) && s[i].key in Content(s) && Content(r) == Content(s) - {s[i].key}
  {
    assert s == s[..i] + [s[i]] + s[i + 1..];
    ContentRemove(s[..i], s[i], s[i + 1..]);
    SameRowsContent(s[..i] + s[i + 1..], r);
  }

  lemma IdsWith(a: Entries, e: Entry<Ptr>, b: Entries)
    ensures IdSet(a + [e] + b) == IdSet(a + b) + {e.id}
  {
    IdSetConcat(a + [e], b);
    IdSetConcat(a, [e]);
    IdSetConcat(a, b);
    assert IdSet([e]) == {e.id} by { assert [e][0].id == e.id; }
  }

  ghost predicate LeastAbove(m: map<Blob, Blob>, k: Blob, q: Blob) {
    q in m && Less(k, q) && forall p | p in m && Less(k, p) :: p == q || Less(q, p)
  }

  ghost predicate GreatestBelow(m: map<Blob, Blob>, k: Blob, q: Blob) {
    q in m && Less(q, k) && forall p | p in m && Less(p, k) :: p == q || Less(p, q)
  }

  lemma RowOf(r: Entries, k: Blob) returns (j: nat)
    requires k in Content(r)
    ensures Holds(r, j, k)
  {
    ContentKeys(r, k);
    j :| Holds(r, j, k);
  }

  /** What remains is below the gap up to row i - 1 and above it from row i on. */
  lemma GapRow(s: Entries, i: nat, r: Entries, j: nat)
    requires Sorted(s) && i < |s| && Rest(s, i, r) && j < |r|
    ensures if j < i then Less(r[j].key, s[i].key) && !Less(s[i].key, r[j].key)
            else Less(s[i].key, r[j].key) && !Less(r[j].key, s[i].key)
  {
    LessAsymmetric(s[i].key, r[j].key);
    assert r[j].key == (s[..i] + s[i + 1..])[j].key;
  }

  lemma AboveGap(s: Entries, i: nat, r: Entries)
    requires Sorted(s) && i < |s| && Rest(s, i, r)
    ensures if i < |r| then LeastAbove(Content(r), s[i].key, r[i].key) else forall q | q in Content(r) :: !Less(s[i].key, q)
  {
    DeletedTable(s, r, i);
    if i < |r| {
      ContentAt(r, i);
      GapRow(s, i, r, i);
    }
    forall q | q in Content(r) && Less(s[i].key, q) ensures i < |r| && (q == r[i].key || Less(r[i].key, q)) {
      var j := RowOf(r, q);
      GapRow(s, i, r, j);
    }
  }

  lemma BelowGap(s: Entries, i: nat, r: Entries)
    requires Sorted(s) && i < |s| && Rest(s, i, r)
    ensures if i > 0 then GreatestBelow(Content(r), s[i].key, r[i - 1].key) else forall q | q in Content(r) :: !Less(q, s[i].key)
  {
    DeletedTable(s, r, i);
    if i > 0 {
      ContentAt(r, i - 1);
      GapRow(s, i, r, i - 1);
    }
    forall q | q in Content(r) && Less(q, s[i].key) ensures i > 0 && (q == r[i - 1].key || Less(q, r[i - 1].key)) {
      var j := RowOf(r, q);
      GapRow(s, i, r, j);
    }
  }

  class RbtCursor {
    const pTree: BtRbTree
    var pNode: Ptr
    var eSkip: Skip

    constructor (pTree: BtRbTree)
      ensures this.pTree == pTree && pNode == NULL && eSkip == SkipNone
    {
      this.pTree := pTree;
      pNode, eSkip := NULL, SkipNone;
    }

    /** The cursor stands on entry i of its table. */
    ghost predicate On(i: nat)
      reads this, pTree
    {
      i < |pTree.Entries()| && pTree.Entries()[i].id == pNode
    }

    /** Binary search from the head; the ghost results say where the search ended. */
    method Moveto(key: Blob) returns (res: int, ghost c: Ctx<Ptr>, ghost t: Tree<Ptr>)
      requires pTree.Valid()
      modifies `pNode, `eSkip
      ensures eSkip == SkipNone && -1 <= res <= 1
      ensures pTree.Is(c, t, pTree.Entries()) && Plug(c, t) == pTree.tree
      ensures res == 0 ==> t.Node? && t.id == pNode && t.key == key
      ensures res != 0 ==> t.Leaf? && pNode == Parent(c) && Around(Before(c), key, After(c))
      ensures res == -1 ==> (c.Top? || c.InRight?) && pNode == LastId(Before(c))
      ensures res == 1 ==> c.InLeft? && pNode == FirstId(After(c))
      ensures res == 0 <==> key in pTree.Table()
    {
      var pTmp := NULL;
      pNode := pTree.pHead;
      res := -1;
      ghost var s := pTree.Entries();
      c, t := Top, pTree.tree;
      HoleGuards(c, t, pTree.node, pTree.pHead);
      while pNode != NULL && res != 0
        invariant pTree.Is(c, t, s) && Plug(c, t) == pTree.tree && -1 <= res <= 1
        invariant res == 0 ==> t.Node? && t.id == pNode && t.key == key
        invariant res != 0 ==> pNode == Root(t) && pTmp == Parent(c) && Around(Before(c), key, After(c))
        invariant res == -1 ==> c.Top? || c.InRight?
        invariant res == 1 ==> c.InLeft?
        invariant t.Node? <==> Root(t) != NULL
        decreases res != 0, t
      {
        Guards(c, t, pTree.node, pTree.pHead);
        LessAsymmetric(t.key, key);
        assert pTree.node[pNode].key == t.key;
        res := KeyCompare(pTree.node[pNode].key, key);
        pTmp := pNode;
        if res == 1 {
          pNode := pTree.node[pNode].pLeft;
          SearchLeft(c, t, key);
          MoveLeft(c, t, pTree.node, pTree.pHead, s);
          c, t := LeftOf(c, t), t.left;
          HoleGuards(c, t, pTree.node, pTree.pHead);
        } else if res == -1 {
          pNode := pTree.node[pNode].pRight;
          SearchRight(c, t, key);
          MoveRight(c, t, pTree.node, pTree.pHead, s);
          c, t := RightOf(c, t), t.right;
          HoleGuards(c, t, pTree.node, pTree.pHead);
        }
      }
      if pNode == NULL { pNode := pTmp; }
      eSkip := SkipNone;
      SearchEnds(c, t, s, key, res);
    }

    /** Links a new red node as the searched child of the cursor's node, or as the head. */
    method Link(p: Ptr, key: Blob, data: Blob, match_: int, ghost c: Ctx<Ptr>)
      requires pTree.Is(c, Leaf, pTree.Entries()) && pNode == Parent(c)
      requires match_ == -1 ==> c.Top? || c.InRight?
      requires match_ == 1 ==> c.InLeft?
      requires (match_ == -1 || match_ == 1) && p != NULL && p !in pTree.node
      modifies pTree`node, pTree`pHead
      ensures pTree.Is(c, NewNode(p, key, data), Before(c) + [Entry(p, key, data)] + After(c))
      ensures pTree.node.Keys == old(pTree.node.Keys) + {p}
      ensures pTree.Entries() == Before(c) + After(c)
    {
      HoleGuards(c, Leaf, pTree.node, pTree.pHead);
      Planted(c, pTree.node, pTree.pHead, pTree.Entries(), p, key, data);
      pTree.node := pTree.node[p := BtRbNode(key, data, false, pNode, NULL, NULL)];
      if pNode != NULL {
        if match_ == -1 {
          pTree.node := pTree.node[pNode := pTree.node[pNode].(pRight := p)];
        } else {
          pTree.node := pTree.node[pNode := pTree.node[pNode].(pLeft := p)];
        }
      } else {
        pTree.pHead := p;
      }
    }

    /** Adds a node where the search for its key ended, and rebalances; the cursor moves to it. */
    method InsertNode(key: Blob, data: Blob, match_: int, ghost c: Ctx<Ptr>)
      requires pTree.Valid() && pTree.Is(c, Leaf, pTree.Entries()) && Plug(c, Leaf) == pTree.tree
      requires pNode == Parent(c) && Around(Before(c), key, After(c))
      requires match_ == -1 ==> c.Top? || c.InRight?
      requires match_ == 1 ==> c.InLeft?
      requires match_ == -1 || match_ == 1
      modifies `pNode, pTree
      ensures pTree.Valid() && pNode !in old(pTree.node)
      ensures old(pTree.Entries()) == Before(c) + After(c)
      ensures pTree.Entries() == Before(c) + [Entry(pNode, key, data)] + After(c)
      ensures pTree.Table() == old(pTree.Table())[key := data] && key !in old(pTree.Table())
    {
      FreshAddress(pTree.node.Keys);
      var p: Ptr :| p != NULL && p !in pTree.node;
      PlantedFault(c, pTree.tree, p, key, data);
      Link(p, key, data, match_, c);
      pNode := p;
      ghost var t' := pTree.DoInsertBalancing(p, c, NewNode(p, key, data), Before(c) + [Entry(p, key, data)] + After(c));
      InsertedNodes(pTree.tree, t', c, Entry(p, key, data));
      ContentInsert(Before(c), Entry(p, key, data), After(c));
      pTree.tree := t';
    }
  
    /** Clobbers the data of the node the search matched. */
    method ReplaceData(data: Blob, ghost c: Ctx<Ptr>, ghost t: Tree<Ptr>)
      requires pTree.Valid() && pTree.Is(c, t, pTree.Entries()) && Plug(c, t) == pTree.tree
      requires t.Node? && t.id == pNode
      modifies pTree
      ensures pTree.Valid() && t.key in old(pTree.Table())
      ensures pTree.Table() == old(pTree.Table())[t.key := data]
      ensures old(pTree.Entries()) == Prior(c, t) + [EntryOf(t)] + Later(c, t)
      ensures pTree.Entries() == Prior(c, t) + [Entry(pNode, t.key, data)] + Later(c, t)
    {
      ghost var s := pTree.Entries();
      Overwritten(c, t, pTree.node, pTree.pHead, s, t.key, data);
      OverwrittenRedBlack(c, t, t.key, data);
      ContentReplace(Prior(c, t), EntryOf(t), Entry(t.id, t.key, data), Later(c, t));
      ContentRemove(Prior(c, t), EntryOf(t), Later(c, t));
      pTree.node := pTree.node[pNode := pTree.node[pNode].(data := data)];
      assert t.(key := t.key, data := data) == t.(data := data);
      MoveTop(c, t.(data := data), pTree.node, pTree.pHead, Prior(c, t) + [Entry(pNode, t.key, data)] + Later(c, t));
      pTree.tree := Plug(c, t.(data := data));
    }

    /** Down to the right child, then left as far as it goes. */
    method NextBelow(ghost i: nat, ghost c: Ctx<Ptr>, ghost t: Tree<Ptr>)
      requires pTree.Is(c, t, pTree.Entries()) && t.Node? && t.id == pNode && t.right.Node? && |Prior(c, t)| == i
      modifies `pNode
      ensures On(i + 1) && pNode != NULL
    {
      ghost var s := pTree.Entries();
      EntryAt(c, t, s);
      ChildGuards(c, t, pTree.node, pTree.pHead);
      MoveRight(c, t, pTree.node, pTree.pHead, s);
      SidesBelow(c, t);
      ghost var d, u := RightOf(c, t), t.right;
      pNode := pTree.node[pNode].pRight;
      ChildGuards(d, u, pTree.node, pTree.pHead);
      while pTree.node[pNode].pLeft != NULL
        invariant pTree.Is(d, u, s) && u.Node? && u.id == pNode && |Before(d)| == i + 1
        invariant pNode in pTree.node && pTree.node[pNode].pLeft == Root(u.left)
        invariant u.left.Node? <==> Root(u.left) != NULL
        decreases u
      {
        pNode := pTree.node[pNode].pLeft;
        MoveLeft(d, u, pTree.node, pTree.pHead, s);
        d, u := LeftOf(d, u), u.left;
        ChildGuards(d, u, pTree.node, pTree.pHead);
      }
      EntryAt(d, u, s);
    }

    /** Up until a step from a left child arrives. */
    method NextAbove(ghost i: nat, ghost c: Ctx<Ptr>, ghost t: Tree<Ptr>)
      requires pTree.Is(c, t, pTree.Entries()) && t.Node? && t.id == pNode && t.right.Leaf? && |Prior(c, t)| == i
      modifies `pNode
      ensures if i + 1 < |pTree.Entries()| then On(i + 1) && pNode != NULL else pNode == NULL
    {
      ghost var s := pTree.Entries();
      EntryAt(c, t, s);
      ChildGuards(c, t, pTree.node, pTree.pHead);
      ghost var d, u := c, t;
      var pX := pNode;
      pNode := pTree.node[pX].pParent;
      while pNode != NULL && pTree.node[pNode].pRight == pX
        invariant pTree.Is(d, u, s) && u.Node? && u.id == pX && |After(d)| == |s| - i - 1 && pNode == Parent(d)
        invariant d.Top? <==> pNode == NULL
        invariant !d.Top? ==> pNode in pTree.node && (pTree.node[pNode].pRight == pX <==> d.InRight?)
        decreases d
      {
        pX := pNode;
        MoveUp(d, u, pTree.node, pTree.pHead, s);
        d, u := d.up, Fill(d, u);
        ChildGuards(d, u, pTree.node, pTree.pHead);
        pNode := pTree.node[pX].pParent;
      }
      if !d.Top? {
        EntryAt(d.up, Fill(d, u), s);
      }
    }

    /** Steps to the next entry in key order, unless the last delete already did. */
    method Next(ghost i: nat) returns (res: int)
      requires pTree.Valid() && (pNode != NULL ==> On(i))
      modifies `pNode, `eSkip
      ensures eSkip == SkipNone && (res == 0 || res == 1) && (res == 1 <==> pNode == NULL)
      ensures old(pNode) == NULL || old(eSkip) == SkipNext ==> pNode == old(pNode)
      ensures old(pNode) != NULL && old(eSkip) != SkipNext ==>
        if i + 1 < |pTree.Entries()| then On(i + 1) && pNode != NULL else pNode == NULL
    {
      if pNode != NULL && eSkip != SkipNext {
        ghost var s := pTree.Entries();
        ghost var c, t := FocusAt(Top, pTree.tree, pTree.node, pTree.pHead, s, i);
        EntryAt(c, t, s);
        ChildGuards(c, t, pTree.node, pTree.pHead);
        if pTree.node[pNode].pRight != NULL {
          NextBelow(i, c, t);
        } else {
          NextAbove(i, c, t);
        }
      }
      eSkip := SkipNone;
      res := if pNode == NULL then 1 else 0;
    }

    /** Down to the left child, then right as far as it goes. */
    method PreviousBelow(ghost i: nat, ghost c: Ctx<Ptr>, ghost t: Tree<Ptr>)
      requires pTree.Is(c, t, pTree.Entries()) && t.Node? && t.id == pNode && t.left.Node? && |Prior(c, t)| == i
      modifies `pNode
      ensures i > 0 && On(i - 1) && pNode != NULL
    {
      ghost var s := pTree.Entries();
      EntryAt(c, t, s);
      ChildGuards(c, t, pTree.node, pTree.pHead);
      MoveLeft(c, t, pTree.node, pTree.pHead, s);
      SidesBelow(c, t);
      pNode := pTree.node[pNode].pLeft;
      RightAsFarAsItGoes(i, LeftOf(c, t), t.left, s);
    }

    method RightAsFarAsItGoes(ghost i: nat, ghost c: Ctx<Ptr>, ghost t: Tree<Ptr>, ghost s: Entries)
      requires s == pTree.Entries() && pTree.Is(c, t, s) && t.Node? && t.id == pNode && |After(c)| == |s| - i
      modifies `pNode
      ensures i > 0 && On(i - 1) && pNode != NULL
    {
      ghost var d, u := c, t;
      ChildGuards(d, u, pTree.node, pTree.pHead);
      while pTree.node[pNode].pRight != NULL
        invariant pTree.Is(d, u, s) && u.Node? && u.id == pNode && |After(d)| == |s| - i
        invariant pNode in pTree.node && pTree.node[pNode].pRight == Root(u.right)
        invariant u.right.Node? <==> Root(u.right) != NULL
        decreases u
      {
        pNode := pTree.node[pNode].pRight;
        MoveRight(d, u, pTree.node, pTree.pHead, s);
        d, u := RightOf(d, u), u.right;
        ChildGuards(d, u, pTree.node, pTree.pHead);
      }
      EntryAt(d, u, s);
    }

    /** Up until a step from a right child arrives. */
    method PreviousAbove(ghost i: nat, ghost c: Ctx<Ptr>, ghost t: Tree<Ptr>)
      requires pTree.Is(c, t, pTree.Entries()) && t.Node? && t.id == pNode && t.left.Leaf? && |Prior(c, t)| == i
      modifies `pNode
      ensures if i > 0 then On(i - 1) && pNode != NULL else pNode == NULL
    {
      ghost var s := pTree.Entries();
      EntryAt(c, t, s);
      ChildGuards(c, t, pTree.node, pTree.pHead);
      ghost var d, u := c, t;
      var pX := pNode;
      pNode := pTree.node[pX].pParent;
      while pNode != NULL && pTree.node[pNode].pLeft == pX
        invariant pTree.Is(d, u, s) && u.Node? && u.id == pX && |Before(d)| == i && pNode == Parent(d)
        invariant d.Top? <==> pNode == NULL
        invariant !d.Top? ==> pNode in pTree.node && (pTree.node[pNode].pLeft == pX <==> d.InLeft?)
        decreases d
      {
        pX := pNode;
        MoveUp(d, u, pTree.node, pTree.pHead, s);
        d, u := d.up, Fill(d, u);
        ChildGuards(d, u, pTree.node, pTree.pHead);
        pNode := pTree.node[pX].pParent;
      }
      if !d.Top? {
        EntryAt(d.up, Fill(d, u), s);
      }
    }

    /** Steps to the previous entry in key order, unless the last delete already did. */
    method Previous(ghost i: nat) returns (res: int)
      requires pTree.Valid() && (pNode != NULL ==> On(i))
      modifies `pNode, `eSkip
      ensures eSkip == SkipNone && (res == 0 || res == 1) && (res == 1 <==> pNode == NULL)
      ensures old(pNode) == NULL || old(eSkip) == SkipPrev ==> pNode == old(pNode)
      ensures old(pNode) != NULL && old(eSkip) != SkipPrev ==>
        if i > 0 then On(i - 1) && pNode != NULL else pNode == NULL
    {
      if pNode != NULL && eSkip != SkipPrev {
        ghost var s := pTree.Entries();
        ghost var c, t := FocusAt(Top, pTree.tree, pTree.node, pTree.pHead, s, i);
        EntryAt(c, t, s);
        ChildGuards(c, t, pTree.node, pTree.pHead);
        if pTree.node[pNode].pLeft != NULL {
          PreviousBelow(i, c, t);
        } else {
          PreviousAbove(i, c, t);
        }
      }
      eSkip := SkipNone;
      res := if pNode == NULL then 1 else 0;
    }
  
    /** Moves to the last entry; on an empty table the cursor stays where it was. */
    method Last() returns (res: int)
      requires pTree.Valid()
      modifies `pNode, `eSkip
      ensures eSkip == SkipNone && (res == 1 <==> pNode == NULL) && (res == 0 || res == 1)
      ensures if pTree.Entries() == [] then pNode == old(pNode) else On(|pTree.Entries()| - 1) && pNode != NULL
    {
      ghost var s := pTree.Entries();
      ghost var d, u := Top, pTree.tree;
      HoleGuards(d, u, pTree.node, pTree.pHead);
      if pTree.pHead != NULL {
        pNode := pTree.pHead;
        ChildGuards(d, u, pTree.node, pTree.pHead);
        while pTree.node[pNode].pRight != NULL
          invariant pTree.Is(d, u, s) && u.Node? && u.id == pNode && After(d) == []
          invariant pNode in pTree.node && pTree.node[pNode].pRight == Root(u.right) && pNode != NULL
          invariant u.right.Node? <==> Root(u.right) != NULL
          decreases u
        {
          pNode := pTree.node[pNode].pRight;
          MoveRight(d, u, pTree.node, pTree.pHead, s);
          SidesBelow(d, u);
          d, u := RightOf(d, u), u.right;
          ChildGuards(d, u, pTree.node, pTree.pHead);
        }
        EntryAt(d, u, s);
      }
      res := if pNode == NULL then 1 else 0;
      eSkip := SkipNone;
    }

    method First() returns (res: int)
      requires pTree.Valid()
      modifies `pNode, `eSkip
      ensures eSkip == SkipNone && (res == 1 <==> pNode == NULL) && (res == 0 || res == 1)
      ensures if pTree.Entries() == [] then pNode == old(pNode) else On(0) && pNode != NULL
    {
      ghost var s := pTree.Entries();
      ghost var d, u := Top, pTree.tree;
      HoleGuards(d, u, pTree.node, pTree.pHead);
      if pTree.pHead != NULL {
        pNode := pTree.pHead;
        ChildGuards(d, u, pTree.node, pTree.pHead);
        while pTree.node[pNode].pLeft != NULL
          invariant pTree.Is(d, u, s) && u.Node? && u.id == pNode && Before(d) == []
          invariant pNode in pTree.node && pTree.node[pNode].pLeft == Root(u.left) && pNode != NULL
          invariant u.left.Node? <==> Root(u.left) != NULL
          decreases u
        {
          pNode := pTree.node[pNode].pLeft;
          MoveLeft(d, u, pTree.node, pTree.pHead, s);
          SidesBelow(d, u);
          d, u := LeftOf(d, u), u.left;
          ChildGuards(d, u, pTree.node, pTree.pHead);
        }
        EntryAt(d, u, s);
      }
      res := if pNode == NULL then 1 else 0;
      eSkip := SkipNone;
    }

    /** Puts pZ's only child, or nothing, in pZ's place. */
    method Unlink(pZ: Ptr, ghost c: Ctx<Ptr>, ghost t: Tree<Ptr>, ghost s: Entries)
      returns (pChild: Ptr, pParent: Ptr)
      requires pTree.Is(c, t, s) && t.Node? && t.id == pZ && (t.left.Leaf? || t.right.Leaf?)
      modifies pTree`node, pTree`pHead
      ensures pTree.Is(c, OnlyChild(t), Prior(c, t) + Later(c, t))
      ensures pChild == Root(OnlyChild(t)) && pParent == Parent(c)
      ensures pTree.node.Keys == old(pTree.node.Keys) && pZ in pTree.node && pTree.node[pZ].isBlack == t.black
      ensures s == Prior(c, t) + [EntryOf(t)] + Later(c, t)
    {
      SplicedDefined(c, t, pTree.node, pTree.pHead);
      SplicedSeen(c, t, pTree.node, pTree.pHead, s);
      pParent := pTree.node[pZ].pParent;
      pChild := if pTree.node[pZ].pLeft != NULL then pTree.node[pZ].pLeft else pTree.node[pZ].pRight;
      if pParent != NULL {
        if pZ == pTree.node[pParent].pLeft {
          pTree.node := pTree.node[pParent := pTree.node[pParent].(pLeft := pChild)];
        } else {
          pTree.node := pTree.node[pParent := pTree.node[pParent].(pRight := pChild)];
        }
      } else {
        pTree.pHead := pChild;
      }
      if pChild != NULL {
        pTree.node := pTree.node[pChild := pTree.node[pChild].(pParent := pParent)];
      }
    }

    /** Splices out pZ, which has at most one child, rebalances and frees it. */
    method SpliceOut(pZ: Ptr, ghost c: Ctx<Ptr>, ghost t: Tree<Ptr>, ghost s: Entries) returns (ghost t': Tree<Ptr>)
      requires pTree.Is(c, t, s) && t.Node? && t.id == pZ && (t.left.Leaf? || t.right.Leaf?)
      requires RedBlack(Plug(c, t))
      modifies pTree`node, pTree`pHead
      ensures pTree.Is(Top, t', Prior(c, t) + Later(c, t)) && RedBlack(t')
      ensures pTree.node.Keys == old(pTree.node.Keys) - {pZ}
      ensures Ids(t') == Ids(Plug(c, t)) - {pZ}
      ensures s == Prior(c, t) + [EntryOf(t)] + Later(c, t)
    {
      SplicedFault(c, t);
      SplicedGone(c, t);
      ghost var ch, r := OnlyChild(t), Prior(c, t) + Later(c, t);
      var pChild, pParent := Unlink(pZ, c, t, s);
      if pTree.node[pZ].isBlack {
        t' := pTree.DoDeleteBalancing(pChild, pParent, c, ch, r);
      } else {
        t' := Plug(c, ch);
        MoveTop(c, ch, pTree.node, pTree.pHead, r);
      }
      IdsInOrder(t');
      Freed(t', pTree.node, pTree.pHead, r, pZ);
      pTree.node := pTree.node - {pZ};
    }

    /** A node with two children takes over its successor's key and data; the successor is spliced out. */
    method DeleteInner(ghost i: nat, ghost c: Ctx<Ptr>, ghost t: Tree<Ptr>) returns (ghost t': Tree<Ptr>)
      requires pTree.Valid() && On(i)
      requires pTree.Is(c, t, pTree.Entries()) && Plug(c, t) == pTree.tree
      requires t.Node? && t.id == pNode && t.left.Node? && t.right.Node? && |Prior(c, t)| == i && pNode != NULL
      modifies this, pTree`node, pTree`pHead
      ensures pTree.Is(Top, t', InOrder(t')) && Rest(pTree.Entries(), i, InOrder(t'))
      ensures i + 1 < |pTree.Entries()| && InOrder(t')[i].id == pNode
      ensures RedBlack(t') && Ids(t') == pTree.node.Keys && pNode == old(pNode) && eSkip == SkipNext
    {
      var pZ := pNode;
      eSkip := SkipNone;
      ghost var s := pTree.Entries();
      EntryAt(c, t, s);
      SizeOfRight(c, t);
      SuccessorRows(s, i, pZ);
      var dummy := Next(i);
      ghost var e := s[i + 1];
      RecordAt(pTree.tree, pTree.node, pTree.pHead, s, i + 1);
      RecordAt(pTree.tree, pTree.node, pTree.pHead, s, i);
      ghost var c1, t1 := SuccessorFocus(c, t, pTree.node, pTree.pHead, s, e.key, e.data);
      pTree.node := pTree.node[pZ := pTree.node[pZ].(data := pTree.node[pNode].data, key := pTree.node[pNode].key)];
      var pTmp := pZ;
      pZ := pNode;
      pNode := pTmp;
      eSkip := SkipNext;
      t' := SpliceOut(pZ, c1, t1, s[..i] + [Entry(pTmp, e.key, e.data)] + s[i + 1..]);
    }

    /** A node with at most one child is spliced out itself, after the cursor has moved off it. */
    method DeleteOuter(ghost i: nat, ghost c: Ctx<Ptr>, ghost t: Tree<Ptr>) returns (ghost t': Tree<Ptr>)
      requires pTree.Valid() && On(i)
      requires pTree.Is(c, t, pTree.Entries()) && Plug(c, t) == pTree.tree
      requires t.Node? && t.id == pNode && (t.left.Leaf? || t.right.Leaf?) && |Prior(c, t)| == i && pNode != NULL
      modifies this, pTree`node, pTree`pHead
      ensures pTree.Is(Top, t', InOrder(t')) && Rest(pTree.Entries(), i, InOrder(t'))
      ensures if i + 1 < |pTree.Entries()| then InOrder(t')[i].id == pNode && eSkip == SkipNext
              else (if i > 0 then InOrder(t')[i - 1].id == pNode else pNode == NULL) && eSkip == SkipPrev
      ensures RedBlack(t') && Ids(t') == pTree.node.Keys
    {
      var pZ := pNode;
      ghost var s := pTree.Entries();
      EntryAt(c, t, s);
      eSkip := SkipNone;
      var res := Next(i);
      eSkip := SkipNext;
      if res != 0 {
        res := Last();
        res := Previous(i);
        eSkip := SkipPrev;
      }
      OuterRows(s, i);
      t' := SpliceOut(pZ, c, t, s);
    }

    /** Deletes the entry under the cursor; a stale or empty cursor deletes nothing. */
    method Delete(ghost i: nat)
      requires pTree.Valid() && (pNode != NULL ==> On(i))
      modifies this, pTree
      ensures pTree.Valid()
      ensures old(pNode) == NULL ==> pTree.Entries() == old(pTree.Entries()) && pNode == NULL && eSkip == old(eSkip)
      ensures old(pNode) != NULL ==>
        var s := old(pTree.Entries());
        && Rest(s, i, pTree.Entries())
        && s[i].key in old(pTree.Table()) && pTree.Table() == old(pTree.Table()) - {s[i].key}
        && (if i + 1 < |s| then On(i) && eSkip == SkipNext
            else (if i > 0 then On(i - 1) else pNode == NULL) && eSkip == SkipPrev)
    {
      if pNode == NULL { return; }
      ghost var s := pTree.Entries();
      ghost var c, t := FocusAt(Top, pTree.tree, pTree.node, pTree.pHead, s, i);
      EntryAt(c, t, s);
      ChildGuards(c, t, pTree.node, pTree.pHead);
      ghost var t';
      if pTree.node[pNode].pLeft != NULL && pTree.node[pNode].pRight != NULL {
        t' := DeleteInner(i, c, t);
      } else {
        t' := DeleteOuter(i, c, t);
      }
      DeletedTable(s, InOrder(t'), i);
      pTree.tree := t';
    }
  
    /** After a delete at key k, stepping forward gives the least remaining key above k, or the end. */
    method DeleteThenNext(ghost i: nat) returns (res: int)
      requires pTree.Valid() && On(i) && pNode != NULL
      modifies this, pTree
      ensures pTree.Valid()
      ensures var k := old(pTree.Entries())[i].key;
        && (res == 1 <==> forall q | q in pTree.Table() :: !Less(k, q))
        && (res != 1 ==> pNode in pTree.node && LeastAbove(pTree.Table(), k, pTree.node[pNode].key))
    {
      ghost var s := pTree.Entries();
      Delete(i);
      ghost var r := pTree.Entries();
      AboveGap(s, i, r);
      ghost var j := if i + 1 < |s| then i else i - 1;
      if j >= 0 { RecordAt(pTree.tree, pTree.node, pTree.pHead, r, j); }
      res := Next(if j >= 0 then j else 0);
    }

    /** After a delete at key k, stepping back gives the greatest remaining key below k, or the end. */
    method DeleteThenPrevious(ghost i: nat) returns (res: int)
      requires pTree.Valid() && On(i) && pNode != NULL
      modifies this, pTree
      ensures pTree.Valid()
      ensures var k := old(pTree.Entries())[i].key;
        && (res == 1 <==> forall q | q in pTree.Table() :: !Less(q, k))
        && (res != 1 ==> pNode in pTree.node && GreatestBelow(pTree.Table(), k, pTree.node[pNode].key))
    {
      ghost var s := pTree.Entries();
      Delete(i);
      ghost var r := pTree.Entries();
      BelowGap(s, i, r);
      ghost var j := if i + 1 < |s| then i else i - 1;
      if j >= 0 { RecordAt(pTree.tree, pTree.node, pTree.pHead, r, j); }
      res := Previous(if j >= 0 then j else 0);
      if res != 1 { RecordAt(pTree.tree, pTree.node, pTree.pHead, r, i - 1); }
    }
  }
}

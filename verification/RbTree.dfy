/** One in-memory table: a red-black tree with parent pointers, updated in place. */
module RbTree {
  import opened Bytes
  import opened RbShape
  import opened RbMemory
  import opened RbEntries
  import opened RbPlaces


  class BtRbTree {
    var node: Memory
    var pHead: Ptr
    ghost var tree: Tree<Ptr>

    /** The records are exactly those of a sorted red-black tree. */
    ghost predicate Valid()
      reads this
    {
      && Is(Top, tree, InOrder(tree)) && RedBlack(tree) && Sorted(InOrder(tree))
      && node.Keys == Ids(tree)
    }

    /** The entries in key order, with the nodes that hold them. */
    ghost function Entries(): seq<Entry<Ptr>>
      reads this
    {
      InOrder(tree)
    }

    /** The table as a finite map from key to data. */
    ghost function Table(): map<Blob, Blob>
      reads this
    {
      Content(Entries())
    }

    /** A sorted tree that need not be balanced, as while a table is being cleared. */
    ghost predicate Pruned(c: Ctx<Ptr>, t: Tree<Ptr>)
      reads this
    {
      Is(c, t, InOrder(tree)) && Plug(c, t) == tree && Sorted(InOrder(tree)) && node.Keys == Ids(tree)
    }

    /** From a node down to a childless one: left where possible, else right. */
    method ToChildless(from: Ptr, ghost c0: Ctx<Ptr>, ghost t0: Tree<Ptr>)
      returns (pNode: Ptr, ghost c: Ctx<Ptr>, ghost t: Tree<Ptr>)
      requires Pruned(c0, t0) && t0.Node? && t0.id == from
      ensures Pruned(c, t) && t.Node? && t.id == pNode && t.left.Leaf? && t.right.Leaf?
    {
      pNode, c, t := from, c0, t0;
      ChildGuards(c, t, node, pHead);
      while node[pNode].pLeft != NULL || node[pNode].pRight != NULL
        invariant Pruned(c, t) && t.Node? && t.id == pNode && pNode in node
        invariant node[pNode].pLeft == Root(t.left) && node[pNode].pRight == Root(t.right)
        invariant (t.left.Node? <==> Root(t.left) != NULL) && (t.right.Node? <==> Root(t.right) != NULL)
        decreases t
      {
        if node[pNode].pLeft != NULL {
          pNode := node[pNode].pLeft;
          MoveLeft(c, t, node, pHead, InOrder(tree));
          c, t := LeftOf(c, t), t.left;
        } else {
          pNode := node[pNode].pRight;
          MoveRight(c, t, node, pHead, InOrder(tree));
          c, t := RightOf(c, t), t.right;
        }
        ChildGuards(c, t, node, pHead);
      }
    }

    /** Frees a childless node; its parent, or nothing, is what remains to clear. */
    method PruneLeaf(pNode: Ptr, ghost c: Ctx<Ptr>, ghost t: Tree<Ptr>) returns (pTmp: Ptr)
      requires Pruned(c, t) && t.Node? && t.id == pNode && t.left.Leaf? && t.right.Leaf?
      modifies `node, `tree
      ensures pTmp == Parent(c) && (c.Top? <==> pTmp == NULL)
      ensures tree == Plug(c, Leaf) && old(Entries()) == Prior(c, t) + [EntryOf(t)] + Later(c, t)
      ensures Entries() == Prior(c, t) + Later(c, t) && node.Keys == Ids(tree)
      ensures if c.Top? then tree == Leaf else Pruned(c, Leaf)
    {
      SplicedDefined(c, t, node, pHead);
      SplicedSeen(c, t, node, pHead, Entries());
      SplicedGone(c, t);
      SortedParts(Prior(c, t), EntryOf(t), Later(c, t));
      pTmp := node[pNode].pParent;
      if pTmp != NULL {
        if node[pTmp].pLeft == pNode {
          node := node[pTmp := node[pTmp].(pLeft := NULL)];
        } else if node[pTmp].pRight == pNode {
          node := node[pTmp := node[pTmp].(pRight := NULL)];
        }
      }
      tree := Plug(c, Leaf);
      IdsInOrder(tree);
      if !c.Top? { FreedAt(c, Leaf, node, pHead, Entries(), pNode); }
      node := node - {pNode};
    }

    constructor ()
      ensures Valid() && Entries() == []
    {
      node, pHead, tree := map[], NULL, Leaf;
    }

    /** The table is the tree t in context c, and its entries in order are s. */
    ghost predicate Is(c: Ctx<Ptr>, t: Tree<Ptr>, s: seq<Entry<Ptr>>)
      reads this
    {
      Seen(c, t, node, pHead, s)
    }

    method LeftRotate(pX: Ptr, ghost c: Ctx<Ptr>, ghost t: Tree<Ptr>, ghost s: seq<Entry<Ptr>>)
      requires Is(c, t, s) && t.Node? && t.id == pX && t.right.Node?
      modifies this`node, this`pHead
      ensures Is(c, RotLeft(t), s) && node.Keys == old(node.Keys)
    {
      LeftRotatedAt(c, t, node, pHead);
      LeftRotatedDefined(c, t, node, pHead);
      RotLeftInOrder(t);
      PlugSameOrder(c, t, RotLeft(t));
      var pY := node[pX].pRight;
      var pb := node[pY].pLeft;
      node := node[pY := node[pY].(pParent := node[pX].pParent)];
      node := SlotSet(node, pX, pY);
      node := node[pY := node[pY].(pLeft := pX)];
      node := node[pX := node[pX].(pParent := pY)];
      node := node[pX := node[pX].(pRight := pb)];
      node := ParentSet(node, pb, pX);
      if pHead == pX { pHead := pY; }
    }

    method RightRotate(pX: Ptr, ghost c: Ctx<Ptr>, ghost t: Tree<Ptr>, ghost s: seq<Entry<Ptr>>)
      requires Is(c, t, s) && t.Node? && t.id == pX && t.left.Node?
      modifies this`node, this`pHead
      ensures Is(c, RotRight(t), s) && node.Keys == old(node.Keys)
    {
      RightRotatedAt(c, t, node, pHead);
      RightRotatedDefined(c, t, node, pHead);
      RotRightInOrder(t);
      PlugSameOrder(c, t, RotRight(t));
      var pY := node[pX].pLeft;
      var pb := node[pY].pRight;
      node := node[pY := node[pY].(pParent := node[pX].pParent)];
      node := SlotSet(node, pX, pY);
      node := node[pY := node[pY].(pRight := pX)];
      node := node[pX := node[pX].(pParent := pY)];
      node := node[pX := node[pX].(pLeft := pb)];
      node := ParentSet(node, pb, pX);
      if pHead == pX { pHead := pY; }
    }
  
    /** X's parent is a left child: if X is the right child, turn it into a left child. */
    method StraightenLeft(x: Ptr, ghost c: Ctx<Ptr>, ghost t: Tree<Ptr>, ghost s: seq<Entry<Ptr>>)
      returns (pX: Ptr, ghost c': Ctx<Ptr>, ghost t': Tree<Ptr>)
      requires Is(c, t, s) && t.Node? && t.id == x && InsertFault(c, t) && RedFrame(c) && c.up.InLeft?
      modifies this`node, this`pHead
      ensures Is(c', t', s) && t'.Node? && t'.id == pX && InsertFault(c', t') && RedFrame(c')
      ensures c'.up == c.up && c'.InLeft? && node.Keys == old(node.Keys)
    {
      pX, c', t' := x, c, t;
      Ancestors(c, t, node, pHead);
      StraightenedFault(c, t);
      if pX == node[node[pX].pParent].pRight {
        pX := node[pX].pParent;
        MoveUp(c, t, node, pHead, s);
        LeftRotate(pX, c.up, Fill(c, t), s);
        MoveLeft(c.up, RotLeft(Fill(c, t)), node, pHead, s);
        c', t' := Straightened(c, t).0, Straightened(c, t).1;
      }
    }

    /** X and its parent are both left children: lift the parent over the grandparent. */
    method LiftLeft(pX: Ptr, pGrandparent: Ptr, ghost c: Ctx<Ptr>, ghost t: Tree<Ptr>, ghost s: seq<Entry<Ptr>>)
      returns (ghost c': Ctx<Ptr>)
      requires Is(c, t, s) && t.Node? && t.id == pX && InsertFault(c, t) && RedFrame(c) && !IsRed(c.up.sib)
      requires pGrandparent == c.up.id && c.up.InLeft? && c.InLeft?
      modifies this`node, this`pHead
      ensures Is(c', t, s) && InsertFault(c', t) && !RedFrame(c') && Depth(c') < Depth(c)
      ensures node.Keys == old(node.Keys)
    {
      Ancestors(c, t, node, pHead);
      LiftedFault(c, t);
      ghost var m := node;
      node := Coloured(node, pGrandparent, false);
      node := Coloured(node, node[pX].pParent, true);
      TiltedSeen(c, t, m, pHead, s);
      RightRotate(pGrandparent, c.up.up, Tilted(c, t), s);
      MoveLeft(c.up.up, RotRight(Tilted(c, t)), node, pHead, s);
      c' := Lifted(c, t);
    }

    /** X's parent is a right child: if X is the left child, turn it into a right child. */
    method StraightenRight(x: Ptr, ghost c: Ctx<Ptr>, ghost t: Tree<Ptr>, ghost s: seq<Entry<Ptr>>)
      returns (pX: Ptr, ghost c': Ctx<Ptr>, ghost t': Tree<Ptr>)
      requires Is(c, t, s) && t.Node? && t.id == x && InsertFault(c, t) && RedFrame(c) && c.up.InRight?
      modifies this`node, this`pHead
      ensures Is(c', t', s) && t'.Node? && t'.id == pX && InsertFault(c', t') && RedFrame(c')
      ensures c'.up == c.up && c'.InRight? && node.Keys == old(node.Keys)
    {
      pX, c', t' := x, c, t;
      Ancestors(c, t, node, pHead);
      StraightenedFault(c, t);
      if pX == node[node[pX].pParent].pLeft {
        pX := node[pX].pParent;
        MoveUp(c, t, node, pHead, s);
        RightRotate(pX, c.up, Fill(c, t), s);
        MoveRight(c.up, RotRight(Fill(c, t)), node, pHead, s);
        c', t' := Straightened(c, t).0, Straightened(c, t).1;
      }
    }

    /** X and its parent are both right children: lift the parent over the grandparent. */
    method LiftRight(pX: Ptr, pGrandparent: Ptr, ghost c: Ctx<Ptr>, ghost t: Tree<Ptr>, ghost s: seq<Entry<Ptr>>)
      returns (ghost c': Ctx<Ptr>)
      requires Is(c, t, s) && t.Node? && t.id == pX && InsertFault(c, t) && RedFrame(c) && !IsRed(c.up.sib)
      requires pGrandparent == c.up.id && c.up.InRight? && c.InRight?
      modifies this`node, this`pHead
      ensures Is(c', t, s) && InsertFault(c', t) && !RedFrame(c') && Depth(c') < Depth(c)
      ensures node.Keys == old(node.Keys)
    {
      Ancestors(c, t, node, pHead);
      LiftedFault(c, t);
      ghost var m := node;
      node := Coloured(node, pGrandparent, false);
      node := Coloured(node, node[pX].pParent, true);
      TiltedSeen(c, t, m, pHead, s);
      LeftRotate(pGrandparent, c.up.up, Tilted(c, t), s);
      MoveRight(c.up.up, RotLeft(Tilted(c, t)), node, pHead, s);
      c' := Lifted(c, t);
    }

    /** The uncle is red too: the grandparent's blackness moves to parent and uncle. */
    method RecolourUncle(pX: Ptr, pUncle: Ptr, pGrandparent: Ptr,
                         ghost c: Ctx<Ptr>, ghost t: Tree<Ptr>, ghost s: seq<Entry<Ptr>>)
      requires Is(c, t, s) && t.Node? && t.id == pX && InsertFault(c, t) && RedFrame(c) && IsRed(c.up.sib)
      requires pUncle == c.up.sib.id && pGrandparent == c.up.id
      modifies this`node, this`pHead
      ensures Is(c.up.up, Recoloured(c, t), s) && InsertFault(c.up.up, Recoloured(c, t))
      ensures Recoloured(c, t).id == pGrandparent && Depth(c.up.up) < Depth(c)
      ensures node.Keys == old(node.Keys)
    {
      Ancestors(c, t, node, pHead);
      RecolouredFault(c, t);
      RecolouredSeen(c, t, node, pHead, s);
      node := Coloured(node, pGrandparent, false);
      node := Coloured(node, pUncle, true);
      node := Coloured(node, node[pX].pParent, true);
    }

    /** Repairs a red node under a red parent; the entries, their order and their nodes stay. */
    method DoInsertBalancing(x: Ptr, ghost c0: Ctx<Ptr>, ghost t0: Tree<Ptr>, ghost s: seq<Entry<Ptr>>)
      returns (ghost t': Tree<Ptr>)
      requires Is(c0, t0, s) && t0.Node? && t0.id == x && InsertFault(c0, t0)
      modifies this`node, this`pHead
      ensures Is(Top, t', s) && RedBlack(t') && node.Keys == old(node.Keys)
    {
      var pX := x;
      ghost var c, t := c0, t0;
      Guards(c, t, node, pHead);
      while pX != pHead && !node[node[pX].pParent].isBlack
        invariant Is(c, t, s) && t.Node? && t.id == pX && InsertFault(c, t) && node.Keys == old(node.Keys)
        invariant pX in node && (pX == pHead <==> c.Top?)
        invariant !c.Top? ==> node[pX].pParent in node && node[node[pX].pParent].isBlack == c.black
        decreases Depth(c)
      {
        Ancestors(c, t, node, pHead);
        var pGrandparent := node[node[pX].pParent].pParent;
        var pUncle := if node[pX].pParent == node[pGrandparent].pLeft
                      then node[pGrandparent].pRight else node[pGrandparent].pLeft;
        if pUncle != NULL && !node[pUncle].isBlack {
          RecolourUncle(pX, pUncle, pGrandparent, c, t, s);
          pX := pGrandparent;
          c, t := c.up.up, Recoloured(c, t);
        } else if node[pX].pParent == node[pGrandparent].pLeft {
          pX, c, t := StraightenLeft(pX, c, t, s);
          c := LiftLeft(pX, pGrandparent, c, t, s);
        } else {
          pX, c, t := StraightenRight(pX, c, t, s);
          c := LiftRight(pX, pGrandparent, c, t, s);
        }
        Guards(c, t, node, pHead);
      }
      t' := RootBlackened(c, t, node, pHead, s);
      node := Coloured(node, pHead, true);
    }
  
    /** The hole is a left child and its sibling is red: rotate a black sibling into place. */
    method TurnRedSiblingLeft(pSib: Ptr, pParent: Ptr, ghost c: Ctx<Ptr>, ghost x: Tree<Ptr>, ghost s: seq<Entry<Ptr>>)
      requires Is(c, x, s) && DeleteFault(c, x) && c.InLeft? && IsRed(c.sib)
      requires pSib == c.sib.id && pParent == c.id
      modifies this`node, this`pHead
      ensures Is(RedSiblingLeft(c), x, s) && node.Keys == old(node.Keys)
    {
      ghost var m := node;
      PaintedSib(c, x, m, pHead, s, true);
      node := Coloured(node, pSib, true);
      ghost var c1 := WithSib(c, c.sib.(black := true));
      PaintedFrame(c1, x, node, pHead, s, false);
      node := Coloured(node, pParent, false);
      ghost var c2 := WithBlack(c1, false);
      MoveUp(c2, x, node, pHead, s);
      LeftRotate(pParent, c2.up, Fill(c2, x), s);
      ghost var t := RotLeft(Fill(c2, x));
      MoveLeft(c2.up, t, node, pHead, s);
      MoveLeft(LeftOf(c2.up, t), t.left, node, pHead, s);
    }

    /** Both nephews black: the sibling turns red. */
    method ReddenSiblingLeft(pSib: Ptr, ghost c: Ctx<Ptr>, ghost x: Tree<Ptr>, ghost s: seq<Entry<Ptr>>)
      returns (ghost x': Tree<Ptr>)
      requires Is(c, x, s) && DeleteFault(c, x) && !IsRed(x) && c.InLeft? && c.sib.Node? && !IsRed(c.sib)
      requires !IsRed(c.sib.left) && !IsRed(c.sib.right) && pSib == c.sib.id
      modifies this`node, this`pHead
      ensures Is(c.up, x', s) && DeleteFault(c.up, x') && x'.Node? && x'.id == c.id && x'.black == c.black
      ensures node.Keys == old(node.Keys) && pHead == old(pHead)
    {
      PaintedSib(c, x, node, pHead, s, false);
      SiblingReddened(c, x);
      node := Coloured(node, pSib, false);
      ghost var c1 := WithSib(c, c.sib.(black := false));
      MoveUp(c1, x, node, pHead, s);
      x' := Fill(c1, x);
    }

    /** Only the near nephew is red: rotate it to the far side. */
    method NearToRight(sib: Ptr, pParent: Ptr, ghost c: Ctx<Ptr>, ghost x: Tree<Ptr>, ghost s: seq<Entry<Ptr>>)
      returns (pSib: Ptr)
      requires Is(c, x, s) && DeleteFault(c, x) && c.InLeft? && c.sib.Node? && c.sib.black
      requires !IsRed(c.sib.right) && IsRed(c.sib.left) && sib == c.sib.id && pParent == c.id
      modifies this`node, this`pHead
      ensures Is(FarRedLeft(c), x, s) && pSib == FarRedLeft(c).sib.id && node.Keys == old(node.Keys)
    {
      SiblingGuards(c, x, node, pHead);
      PaintedNephewLeft(c, x, node, pHead, s, true);
      if node[sib].pLeft != NULL { node := Coloured(node, node[sib].pLeft, true); }
      ghost var c1 := WithSib(c, c.sib.(left := c.sib.left.(black := true)));
      PaintedSib(c1, x, node, pHead, s, false);
      node := Coloured(node, sib, false);
      ghost var c2 := WithSib(c1, c1.sib.(black := false));
      MoveAcross(c2, x, node, pHead, s);
      RightRotate(sib, SibCtx(c2, x), c2.sib, s);
      MoveAcross(SibCtx(c2, x), RotRight(c2.sib), node, pHead, s);
      SiblingGuards(FarRedLeft(c), x, node, pHead);
      pSib := node[pParent].pRight;
    }

    /** The far nephew is red: the sibling takes over and the shortage is gone. */
    method SettleLeft(pSib: Ptr, pParent: Ptr, ghost c: Ctx<Ptr>, ghost x: Tree<Ptr>, ghost s: seq<Entry<Ptr>>)
      requires Is(c, x, s) && c.InLeft? && c.sib.Node? && c.sib.right.Node? && pSib == c.sib.id && pParent == c.id
      modifies this`node, this`pHead
      ensures Is(c.up, SettledLeft(c, x), s) && node.Keys == old(node.Keys)
    {
      HoleGuards(c, x, node, pHead);
      PaintedSib(c, x, node, pHead, s, c.black);
      node := Coloured(node, pSib, node[pParent].isBlack);
      ghost var c1 := WithSib(c, c.sib.(black := c.black));
      PaintedFrame(c1, x, node, pHead, s, true);
      node := Coloured(node, pParent, true);
      ghost var c2 := WithBlack(c1, true);
      SiblingGuards(c2, x, node, pHead);
      PaintedNephewRight(c2, x, node, pHead, s, true);
      if node[pSib].pRight != NULL { node := Coloured(node, node[pSib].pRight, true); }
      ghost var c3 := WithSib(c2, c2.sib.(right := c2.sib.right.(black := true)));
      MoveUp(c3, x, node, pHead, s);
      LeftRotate(pParent, c3.up, Fill(c3, x), s);
    }

    /** The hole is a right child and its sibling is red: rotate a black sibling into place. */
    method TurnRedSiblingRight(pSib: Ptr, pParent: Ptr, ghost c: Ctx<Ptr>, ghost x: Tree<Ptr>, ghost s: seq<Entry<Ptr>>)
      requires Is(c, x, s) && DeleteFault(c, x) && c.InRight? && IsRed(c.sib)
      requires pSib == c.sib.id && pParent == c.id
      modifies this`node, this`pHead
      ensures Is(RedSiblingRight(c), x, s) && node.Keys == old(node.Keys)
    {
      ghost var m := node;
      PaintedSib(c, x, m, pHead, s, true);
      node := Coloured(node, pSib, true);
      ghost var c1 := WithSib(c, c.sib.(black := true));
      PaintedFrame(c1, x, node, pHead, s, false);
      node := Coloured(node, pParent, false);
      ghost var c2 := WithBlack(c1, false);
      MoveUp(c2, x, node, pHead, s);
      RightRotate(pParent, c2.up, Fill(c2, x), s);
      ghost var t := RotRight(Fill(c2, x));
      MoveRight(c2.up, t, node, pHead, s);
      MoveRight(RightOf(c2.up, t), t.right, node, pHead, s);
    }

    /** Both nephews black: the sibling turns red. */
    method ReddenSiblingRight(pSib: Ptr, ghost c: Ctx<Ptr>, ghost x: Tree<Ptr>, ghost s: seq<Entry<Ptr>>)
      returns (ghost x': Tree<Ptr>)
      requires Is(c, x, s) && DeleteFault(c, x) && !IsRed(x) && c.InRight? && c.sib.Node? && !IsRed(c.sib)
      requires !IsRed(c.sib.left) && !IsRed(c.sib.right) && pSib == c.sib.id
      modifies this`node, this`pHead
      ensures Is(c.up, x', s) && DeleteFault(c.up, x') && x'.Node? && x'.id == c.id && x'.black == c.black
      ensures node.Keys == old(node.Keys) && pHead == old(pHead)
    {
      PaintedSib(c, x, node, pHead, s, false);
      SiblingReddened(c, x);
      node := Coloured(node, pSib, false);
      ghost var c1 := WithSib(c, c.sib.(black := false));
      MoveUp(c1, x, node, pHead, s);
      x' := Fill(c1, x);
    }

    /** Only the near nephew is red: rotate it to the far side. */
    method NearToLeft(sib: Ptr, pParent: Ptr, ghost c: Ctx<Ptr>, ghost x: Tree<Ptr>, ghost s: seq<Entry<Ptr>>)
      returns (pSib: Ptr)
      requires Is(c, x, s) && DeleteFault(c, x) && c.InRight? && c.sib.Node? && c.sib.black
      requires !IsRed(c.sib.left) && IsRed(c.sib.right) && sib == c.sib.id && pParent == c.id
      modifies this`node, this`pHead
      ensures Is(FarRedRight(c), x, s) && pSib == FarRedRight(c).sib.id && node.Keys == old(node.Keys)
    {
      SiblingGuards(c, x, node, pHead);
      PaintedNephewRight(c, x, node, pHead, s, true);
      if node[sib].pRight != NULL { node := Coloured(node, node[sib].pRight, true); }
      ghost var c1 := WithSib(c, c.sib.(right := c.sib.right.(black := true)));
      PaintedSib(c1, x, node, pHead, s, false);
      node := Coloured(node, sib, false);
      ghost var c2 := WithSib(c1, c1.sib.(black := false));
      MoveAcross(c2, x, node, pHead, s);
      LeftRotate(sib, SibCtx(c2, x), c2.sib, s);
      MoveAcross(SibCtx(c2, x), RotLeft(c2.sib), node, pHead, s);
      SiblingGuards(FarRedRight(c), x, node, pHead);
      pSib := node[pParent].pLeft;
    }

    /** The far nephew is red: the sibling takes over and the shortage is gone. */
    method SettleRight(pSib: Ptr, pParent: Ptr, ghost c: Ctx<Ptr>, ghost x: Tree<Ptr>, ghost s: seq<Entry<Ptr>>)
      requires Is(c, x, s) && c.InRight? && c.sib.Node? && c.sib.left.Node? && pSib == c.sib.id && pParent == c.id
      modifies this`node, this`pHead
      ensures Is(c.up, SettledRight(c, x), s) && node.Keys == old(node.Keys)
    {
      HoleGuards(c, x, node, pHead);
      PaintedSib(c, x, node, pHead, s, c.black);
      node := Coloured(node, pSib, node[pParent].isBlack);
      ghost var c1 := WithSib(c, c.sib.(black := c.black));
      PaintedFrame(c1, x, node, pHead, s, true);
      node := Coloured(node, pParent, true);
      ghost var c2 := WithBlack(c1, true);
      SiblingGuards(c2, x, node, pHead);
      PaintedNephewLeft(c2, x, node, pHead, s, true);
      if node[pSib].pLeft != NULL { node := Coloured(node, node[pSib].pLeft, true); }
      ghost var c3 := WithSib(c2, c2.sib.(left := c2.sib.left.(black := true)));
      MoveUp(c3, x, node, pHead, s);
      RightRotate(pParent, c3.up, Fill(c3, x), s);
    }
  
    /** A nephew is red: at most two rotations end the repair. */
    method FinishLeft(sib: Ptr, pParent: Ptr, ghost c0: Ctx<Ptr>, ghost t0: Tree<Ptr>, ghost s: seq<Entry<Ptr>>)
      returns (ghost x: Tree<Ptr>)
      requires Is(c0, t0, s) && DeleteFault(c0, t0) && !IsRed(t0) && c0.InLeft? && c0.sib.Node? && c0.sib.black
      requires IsRed(c0.sib.left) || IsRed(c0.sib.right)
      requires sib == c0.sib.id && pParent == c0.id
      modifies this`node, this`pHead
      ensures Is(Top, x, s) && DeleteFault(Top, x) && pHead == Root(x) && x.Node? && node.Keys == old(node.Keys)
    {
      var pSib := sib;
      ghost var c := c0;
      SiblingGuards(c, t0, node, pHead);
      if node[pSib].pRight == NULL || node[node[pSib].pRight].isBlack {
        FarRedLeftFault(c, t0);
        pSib := NearToRight(pSib, pParent, c, t0, s);
        c := FarRedLeft(c);
      }
      SettleLeft(pSib, pParent, c, t0, s);
      SettledLeftRedBlack(c, t0);
      MoveTop(c.up, SettledLeft(c, t0), node, pHead, s);
      PlugIds(c.up, SettledLeft(c, t0));
      x := Plug(c.up, SettledLeft(c, t0));
    }

    /** One round of the repair when X hangs on the left. */
    method RepairLeft(x0: Ptr, pParent: Ptr, ghost c0: Ctx<Ptr>, ghost t0: Tree<Ptr>, ghost s: seq<Entry<Ptr>>)
      returns (pX: Ptr, ghost c: Ctx<Ptr>, ghost x: Tree<Ptr>)
      requires Is(c0, t0, s) && DeleteFault(c0, t0) && !IsRed(t0) && c0.InLeft? && x0 == Root(t0) && pParent == c0.id
      modifies this`node, this`pHead
      ensures Is(c, x, s) && DeleteFault(c, x) && pX == Root(x) && x.Node?
      ensures IsRed(x) || Depth(c) < Depth(c0)
      ensures node.Keys == old(node.Keys)
    {
      pX, c, x := x0, c0, t0;
      DeleteFaultSibling(c, x);
      SiblingGuards(c, x, node, pHead);
      var pSib := node[pParent].pRight;
      if pSib != NULL && !node[pSib].isBlack {
        TurnRedSiblingLeft(pSib, pParent, c, x, s);
        RedSiblingLeftFault(c, x);
        c := RedSiblingLeft(c);
        SiblingGuards(c, x, node, pHead);
        pSib := node[pParent].pRight;
      }
      if pSib == NULL {
        assert false;
      } else if (node[pSib].pLeft == NULL || node[node[pSib].pLeft].isBlack) &&
                (node[pSib].pRight == NULL || node[node[pSib].pRight].isBlack) {
        x := ReddenSiblingLeft(pSib, c, x, s);
        pX, c := pParent, c.up;
      } else {
        x := FinishLeft(pSib, pParent, c, x, s);
        pX, c := pHead, Top;
      }
    }

    /** A nephew is red: at most two rotations end the repair. */
    method FinishRight(sib: Ptr, pParent: Ptr, ghost c0: Ctx<Ptr>, ghost t0: Tree<Ptr>, ghost s: seq<Entry<Ptr>>)
      returns (ghost x: Tree<Ptr>)
      requires Is(c0, t0, s) && DeleteFault(c0, t0) && !IsRed(t0) && c0.InRight? && c0.sib.Node? && c0.sib.black
      requires IsRed(c0.sib.left) || IsRed(c0.sib.right)
      requires sib == c0.sib.id && pParent == c0.id
      modifies this`node, this`pHead
      ensures Is(Top, x, s) && DeleteFault(Top, x) && pHead == Root(x) && x.Node? && node.Keys == old(node.Keys)
    {
      var pSib := sib;
      ghost var c := c0;
      SiblingGuards(c, t0, node, pHead);
      if node[pSib].pLeft == NULL || node[node[pSib].pLeft].isBlack {
        FarRedRightFault(c, t0);
        pSib := NearToLeft(pSib, pParent, c, t0, s);
        c := FarRedRight(c);
      }
      SettleRight(pSib, pParent, c, t0, s);
      SettledRightRedBlack(c, t0);
      MoveTop(c.up, SettledRight(c, t0), node, pHead, s);
      PlugIds(c.up, SettledRight(c, t0));
      x := Plug(c.up, SettledRight(c, t0));
    }

    /** One round of the repair when X hangs on the right. */
    method RepairRight(x0: Ptr, pParent: Ptr, ghost c0: Ctx<Ptr>, ghost t0: Tree<Ptr>, ghost s: seq<Entry<Ptr>>)
      returns (pX: Ptr, ghost c: Ctx<Ptr>, ghost x: Tree<Ptr>)
      requires Is(c0, t0, s) && DeleteFault(c0, t0) && !IsRed(t0) && c0.InRight? && x0 == Root(t0) && pParent == c0.id
      modifies this`node, this`pHead
      ensures Is(c, x, s) && DeleteFault(c, x) && pX == Root(x) && x.Node?
      ensures IsRed(x) || Depth(c) < Depth(c0)
      ensures node.Keys == old(node.Keys)
    {
      pX, c, x := x0, c0, t0;
      DeleteFaultSibling(c, x);
      SiblingGuards(c, x, node, pHead);
      var pSib := node[pParent].pLeft;
      if pSib != NULL && !node[pSib].isBlack {
        TurnRedSiblingRight(pSib, pParent, c, x, s);
        RedSiblingRightFault(c, x);
        c := RedSiblingRight(c);
        SiblingGuards(c, x, node, pHead);
        pSib := node[pParent].pLeft;
      }
      if pSib == NULL {
        assert false;
      } else if (node[pSib].pLeft == NULL || node[node[pSib].pLeft].isBlack) &&
                (node[pSib].pRight == NULL || node[node[pSib].pRight].isBlack) {
        x := ReddenSiblingRight(pSib, c, x, s);
        pX, c := pParent, c.up;
      } else {
        x := FinishRight(pSib, pParent, c, x, s);
        pX, c := pHead, Top;
      }
    }

    /** Repairs a hole one black node short; the entries, their order and their nodes stay. */
    method DoDeleteBalancing(x0: Ptr, parent0: Ptr, ghost c0: Ctx<Ptr>, ghost t0: Tree<Ptr>, ghost s: seq<Entry<Ptr>>)
      returns (ghost t': Tree<Ptr>)
      requires Is(c0, t0, s) && DeleteFault(c0, t0) && x0 == Root(t0) && parent0 == Parent(c0)
      modifies this`node, this`pHead
      ensures Is(Top, t', s) && RedBlack(t') && node.Keys == old(node.Keys)
    {
      var pX, pParent := x0, parent0;
      ghost var c, x := c0, t0;
      HoleGuards(c, x, node, pHead);
      while pX != pHead && (pX == NULL || node[pX].isBlack)
        invariant Is(c, x, s) && DeleteFault(c, x) && pX == Root(x) && pParent == Parent(c)
        invariant node.Keys == old(node.Keys)
        invariant pX != NULL ==> pX in node
        invariant c.Top? ==> pX == pHead
        decreases if IsRed(x) then 0 else 1 + Depth(c)
      {
        HoleGuards(c, x, node, pHead);
        DeleteFaultSibling(c, x);
        if pX == node[pParent].pLeft {
          pX, c, x := RepairLeft(pX, pParent, c, x, s);
        } else {
          pX, c, x := RepairRight(pX, pParent, c, x, s);
        }
        HoleGuards(c, x, node, pHead);
        pParent := node[pX].pParent;
      }
      HoleGuards(c, x, node, pHead);
      BlackenedRedBlack(c, x);
      if pX != NULL {
        Painted(c, x, node, pHead, s, true);
        node := Coloured(node, pX, true);
      }
      MoveTop(c, Blackened(x), node, pHead, s);
      t' := Plug(c, Blackened(x));
    }
  }
}

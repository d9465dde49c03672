/** The nodes of one in-memory table as addressed records, and the trees they represent. */
module RbMemory {
  import opened Bytes
  import opened RbShape

  /** An address; NULL is 0. */
  type Ptr = nat
  const NULL: Ptr := 0

  datatype BtRbNode = BtRbNode(key: Blob, data: Blob, isBlack: bool, pParent: Ptr, pLeft: Ptr, pRight: Ptr)

  type Memory = map<Ptr, BtRbNode>

  function Root(t: Tree<Ptr>): Ptr {
    if t.Leaf? then NULL else t.id
  }

  /** The node whose child pointer is the hole, or NULL when the hole is the whole tree. */
  function Parent(c: Ctx<Ptr>): Ptr {
    if c.Top? then NULL else c.id
  }

  /** The records of t's nodes hold exactly t's fields and links, below the given parent. */
  ghost predicate Rep(t: Tree<Ptr>, m: Memory, par: Ptr) {
    t.Node? ==>
      && t.id != NULL && t.id in m
      && m[t.id] == BtRbNode(t.key, t.data, t.black, par, Root(t.left), Root(t.right))
      && Rep(t.left, m, t.id) && Rep(t.right, m, t.id)
  }

  /** The records around the hole, up to the head pointer. */
  ghost predicate RepCtx(c: Ctx<Ptr>, m: Memory, hole: Ptr, head: Ptr)
    decreases c
  {
    match c
    case Top => head == hole
    case InLeft(up, n, b, k, d, sib) =>
      && n != NULL && n in m && m[n] == BtRbNode(k, d, b, Parent(up), hole, Root(sib))
      && Rep(sib, m, n) && RepCtx(up, m, n, head)
    case InRight(up, n, b, k, d, sib) =>
      && n != NULL && n in m && m[n] == BtRbNode(k, d, b, Parent(up), Root(sib), hole)
      && Rep(sib, m, n) && RepCtx(up, m, n, head)
  }

  /** All nodes of a context and of the tree in its hole are different. */
  ghost predicate Apart(c: Ctx<Ptr>, t: Tree<Ptr>) {
    Distinct(t) && CtxDistinct(c) && Ids(t) !! CtxIds(c)
  }

  ghost predicate At(c: Ctx<Ptr>, t: Tree<Ptr>, m: Memory, head: Ptr) {
    Apart(c, t) && Rep(t, m, Parent(c)) && RepCtx(c, m, Root(t), head)
  }

  // ---------------------------------------------------------------- frames

  ghost predicate SameOn(ids: set<Ptr>, m: Memory, m': Memory) {
    forall n | n in ids :: n in m ==> n in m' && m'[n] == m[n]
  }

  lemma {:induction false} RepFrame(t: Tree<Ptr>, m: Memory, m': Memory, par: Ptr)
    requires Rep(t, m, par) && SameOn(Ids(t), m, m')
    ensures Rep(t, m', par)
  {
    if t.Node? {
      RepFrame(t.left, m, m', t.id);
      RepFrame(t.right, m, m', t.id);
    }
  }

  lemma {:induction false} CtxFrame(c: Ctx<Ptr>, m: Memory, m': Memory, hole: Ptr, head: Ptr)
    requires RepCtx(c, m, hole, head) && SameOn(CtxIds(c), m, m')
    ensures RepCtx(c, m', hole, head)
    decreases c
  {
    if !c.Top? {
      RepFrame(c.sib, m, m', c.id);
      CtxFrame(c.up, m, m', c.id, head);
    }
  }

  lemma {:induction false} HeadInCtx(c: Ctx<Ptr>, m: Memory, hole: Ptr, head: Ptr)
    requires RepCtx(c, m, hole, head)
    ensures if c.Top? then head == hole else head in CtxIds(c)
    decreases c
  {
    if !c.Top? {
      HeadInCtx(c.up, m, c.id, head);
    }
  }

  lemma RootIn(t: Tree<Ptr>)
    ensures t.Node? ==> Root(t) in Ids(t)
  {}

  lemma {:induction false} NoNull(t: Tree<Ptr>, m: Memory, par: Ptr)
    requires Rep(t, m, par)
    ensures NULL !in Ids(t) && Ids(t) <= m.Keys
  {
    if t.Node? {
      NoNull(t.left, m, t.id);
      NoNull(t.right, m, t.id);
    }
  }

  lemma {:induction false} CtxNoNull(c: Ctx<Ptr>, m: Memory, hole: Ptr, head: Ptr)
    requires RepCtx(c, m, hole, head)
    ensures NULL !in CtxIds(c) && CtxIds(c) <= m.Keys
    decreases c
  {
    if !c.Top? {
      NoNull(c.sib, m, c.id);
      CtxNoNull(c.up, m, c.id, head);
    }
  }

  // ---------------------------------------------------------------- pointer surgery

  /** The parent's slot for pOld, or nothing at the root, now holds pNew. */
  function SlotSet(m: Memory, pOld: Ptr, pNew: Ptr): Memory
    requires pOld in m && (m[pOld].pParent != NULL ==> m[pOld].pParent in m)
  {
    var p := m[pOld].pParent;
    if p == NULL then m
    else if m[p].pLeft == pOld then m[p := m[p].(pLeft := pNew)]
    else m[p := m[p].(pRight := pNew)]
  }

  /** Redirecting the slot (and the head) redirects the hole and touches nothing else. */
  lemma SlotSetCtx(c: Ctx<Ptr>, m: Memory, pOld: Ptr, pNew: Ptr, head: Ptr)
    requires CtxDistinct(c) && pOld != NULL && pOld !in CtxIds(c)
    requires RepCtx(c, m, pOld, head) && pOld in m && m[pOld].pParent == Parent(c)
    ensures RepCtx(c, SlotSet(m, pOld, pNew), pNew, if head == pOld then pNew else head)
    ensures forall n | n in m && n !in CtxIds(c) :: n in SlotSet(m, pOld, pNew) && SlotSet(m, pOld, pNew)[n] == m[n]
    ensures SlotSet(m, pOld, pNew).Keys == m.Keys
  {
    HeadInCtx(c, m, pOld, head);
    if !c.Top? {
      RootIn(c.sib);
      var m' := SlotSet(m, pOld, pNew);
      RepFrame(c.sib, m, m', c.id);
      CtxFrame(c.up, m, m', c.id, head);
    }
  }

  function ParentSet(m: Memory, p: Ptr, par: Ptr): Memory
    requires p != NULL ==> p in m
  {
    if p == NULL then m else m[p := m[p].(pParent := par)]
  }

  lemma Adopted(t: Tree<Ptr>, m: Memory, m': Memory, was: Ptr, par: Ptr)
    requires Rep(t, m, was) && Distinct(t)
    requires t.Node? ==> t.id in m' && m'[t.id] == m[t.id].(pParent := par)
    requires SameOn(Ids(t) - {Root(t)}, m, m')
    ensures Rep(t, m', par)
  {
    if t.Node? {
      RepFrame(t.left, m, m', t.id);
      RepFrame(t.right, m, m', t.id);
    }
  }

  // ---------------------------------------------------------------- rotations

  /** What a left rotation at x leaves in the subtree's own records. */
  ghost predicate LeftTurned(t: Tree<Ptr>, m: Memory, m': Memory)
    requires t.Node? && t.right.Node?
  {
    var x, y, b := t.id, t.right.id, t.right.left;
    && x in m && y in m && x in m' && y in m'
    && m'[y] == m[y].(pParent := m[x].pParent, pLeft := x)
    && m'[x] == m[x].(pParent := y, pRight := Root(b))
    && (b.Node? ==> b.id in m && b.id in m' && m'[b.id] == m[b.id].(pParent := x))
    && SameOn(Ids(t) - {x, y, Root(b)}, m, m')
  }

  lemma {:induction false} LeftTurnedRep(t: Tree<Ptr>, m: Memory, m': Memory, par: Ptr)
    requires t.Node? && t.right.Node? && Distinct(t) && Rep(t, m, par) && LeftTurned(t, m, m')
    ensures Rep(RotLeft(t), m', par)
  {
    var y, b := t.right, t.right.left;
    assert Rep(y, m, t.id) && Distinct(y) && Ids(y) == Ids(b) + {y.id} + Ids(y.right);
    RootIn(b);
    NoNull(t, m, par);
    assert Ids(b) <= Ids(y) <= Ids(t);
    assert Ids(t.left) <= Ids(t) - {t.id, y.id, Root(b)};
    assert Ids(y.right) <= Ids(t) - {t.id, y.id, Root(b)};
    RepFrame(t.left, m, m', t.id);
    RepFrame(y.right, m, m', y.id);
    Adopted(b, m, m', y.id, t.id);
  }

  ghost predicate RightTurned(t: Tree<Ptr>, m: Memory, m': Memory)
    requires t.Node? && t.left.Node?
  {
    var x, y, b := t.id, t.left.id, t.left.right;
    && x in m && y in m && x in m' && y in m'
    && m'[y] == m[y].(pParent := m[x].pParent, pRight := x)
    && m'[x] == m[x].(pParent := y, pLeft := Root(b))
    && (b.Node? ==> b.id in m && b.id in m' && m'[b.id] == m[b.id].(pParent := x))
    && SameOn(Ids(t) - {x, y, Root(b)}, m, m')
  }

  lemma {:induction false} RightTurnedRep(t: Tree<Ptr>, m: Memory, m': Memory, par: Ptr)
    requires t.Node? && t.left.Node? && Distinct(t) && Rep(t, m, par) && RightTurned(t, m, m')
    ensures Rep(RotRight(t), m', par)
  {
    var y, b := t.left, t.left.right;
    assert Rep(y, m, t.id) && Distinct(y) && Ids(y) == Ids(y.left) + {y.id} + Ids(b);
    RootIn(b);
    NoNull(t, m, par);
    assert Ids(b) <= Ids(y) <= Ids(t);
    assert Ids(t.right) <= Ids(t) - {t.id, y.id, Root(b)};
    assert Ids(y.left) <= Ids(t) - {t.id, y.id, Root(b)};
    RepFrame(t.right, m, m', t.id);
    RepFrame(y.left, m, m', y.id);
    Adopted(b, m, m', y.id, t.id);
  }

  /** The pointer writes of a left rotation at x; y is x's right child, b the subtree that changes sides. */
  function LeftRotated(m: Memory, x: Ptr): Memory
    requires x in m && m[x].pRight in m && m[x].pRight != x
    requires m[x].pParent != NULL ==> m[x].pParent in m
    requires var b := m[m[x].pRight].pLeft; b != NULL ==> b in m
  {
    var y := m[x].pRight;
    var b := m[y].pLeft;
    var m1 := SlotSet(m[y := m[y].(pParent := m[x].pParent)], x, y);
    var m2 := m1[y := m1[y].(pLeft := x)];
    var m3 := m2[x := m2[x].(pParent := y)];
    var m4 := m3[x := m3[x].(pRight := b)];
    ParentSet(m4, b, x)
  }

  lemma LeftRotatedDefined(c: Ctx<Ptr>, t: Tree<Ptr>, m: Memory, head: Ptr)
    requires At(c, t, m, head) && t.Node? && t.right.Node?
    ensures var x, y, b := t.id, t.right.id, Root(t.right.left);
      && x in m && m[x].pRight == y && y in m && y != x && m[y].pLeft == b
      && m[x].pParent == Parent(c) && (Parent(c) != NULL ==> Parent(c) in m)
      && x != NULL && y != NULL && (b != NULL ==> b in m && b in Ids(t.right.left) && b != x && b != y)
      && Parent(c) != x && Parent(c) != y && (b != NULL ==> Parent(c) != b)
      && (t.right.left.Node? <==> b != NULL)
      && x !in CtxIds(c) && y !in CtxIds(c) && b !in CtxIds(c)
  {
    var y := t.right;
    assert Rep(y, m, t.id) && Rep(y.left, m, y.id);
    RootIn(y.left);
    CtxNoNull(c, m, t.id, head);
    assert Ids(y.left) <= Ids(y) <= Ids(t);
  }

  lemma LeftRotatedTurns(c: Ctx<Ptr>, t: Tree<Ptr>, m: Memory, head: Ptr)
    requires At(c, t, m, head) && t.Node? && t.right.Node?
    requires LeftRotated.requires(m, t.id)
    ensures LeftTurned(t, m, LeftRotated(m, t.id))
    ensures LeftRotated(m, t.id).Keys == m.Keys
  {
    LeftRotatedDefined(c, t, m, head);
    NoNull(t, m, Parent(c));
  }

  lemma LeftRotatedCtx(c: Ctx<Ptr>, t: Tree<Ptr>, m: Memory, head: Ptr)
    requires At(c, t, m, head) && t.Node? && t.right.Node?
    requires LeftRotated.requires(m, t.id)
    ensures RepCtx(c, LeftRotated(m, t.id), t.right.id, if head == t.id then t.right.id else head)
  {
    LeftRotatedDefined(c, t, m, head);
    var x, y := t.id, t.right.id;
    var m0 := m[y := m[y].(pParent := m[x].pParent)];
    CtxFrame(c, m, m0, x, head);
    SlotSetCtx(c, m0, x, y, head);
    CtxFrame(c, SlotSet(m0, x, y), LeftRotated(m, x), y, if head == x then y else head);
  }

  /** A left rotation's pointer writes turn the represented tree, wherever it hangs. */
  lemma LeftRotatedAt(c: Ctx<Ptr>, t: Tree<Ptr>, m: Memory, head: Ptr)
    requires At(c, t, m, head) && t.Node? && t.right.Node?
    ensures LeftRotated.requires(m, t.id)
    ensures At(c, RotLeft(t), LeftRotated(m, t.id), if head == t.id then t.right.id else head)
    ensures LeftRotated(m, t.id).Keys == m.Keys
  {
    LeftRotatedDefined(c, t, m, head);
    LeftRotatedTurns(c, t, m, head);
    LeftRotatedCtx(c, t, m, head);
    LeftTurnedRep(t, m, LeftRotated(m, t.id), Parent(c));
    RotLeftIds(t);
  }

  /** The pointer writes of a right rotation at x; y is x's left child, b the subtree that changes sides. */
  function RightRotated(m: Memory, x: Ptr): Memory
    requires x in m && m[x].pLeft in m && m[x].pLeft != x
    requires m[x].pParent != NULL ==> m[x].pParent in m
    requires var b := m[m[x].pLeft].pRight; b != NULL ==> b in m
  {
    var y := m[x].pLeft;
    var b := m[y].pRight;
    var m1 := SlotSet(m[y := m[y].(pParent := m[x].pParent)], x, y);
    var m2 := m1[y := m1[y].(pRight := x)];
    var m3 := m2[x := m2[x].(pParent := y)];
    var m4 := m3[x := m3[x].(pLeft := b)];
    ParentSet(m4, b, x)
  }

  lemma RightRotatedDefined(c: Ctx<Ptr>, t: Tree<Ptr>, m: Memory, head: Ptr)
    requires At(c, t, m, head) && t.Node? && t.left.Node?
    ensures var x, y, b := t.id, t.left.id, Root(t.left.right);
      && x in m && m[x].pLeft == y && y in m && y != x && m[y].pRight == b
      && m[x].pParent == Parent(c) && (Parent(c) != NULL ==> Parent(c) in m)
      && x != NULL && y != NULL && (b != NULL ==> b in m && b in Ids(t.left.right) && b != x && b != y)
      && Parent(c) != x && Parent(c) != y && (b != NULL ==> Parent(c) != b)
      && (t.left.right.Node? <==> b != NULL)
      && x !in CtxIds(c) && y !in CtxIds(c) && b !in CtxIds(c)
  {
    var y := t.left;
    assert Rep(y, m, t.id) && Rep(y.right, m, y.id);
    RootIn(y.right);
    CtxNoNull(c, m, t.id, head);
    assert Ids(y.right) <= Ids(y) <= Ids(t);
  }

  lemma RightRotatedTurns(c: Ctx<Ptr>, t: Tree<Ptr>, m: Memory, head: Ptr)
    requires At(c, t, m, head) && t.Node? && t.left.Node?
    requires RightRotated.requires(m, t.id)
    ensures RightTurned(t, m, RightRotated(m, t.id))
    ensures RightRotated(m, t.id).Keys == m.Keys
  {
    RightRotatedDefined(c, t, m, head);
    NoNull(t, m, Parent(c));
  }

  lemma RightRotatedCtx(c: Ctx<Ptr>, t: Tree<Ptr>, m: Memory, head: Ptr)
    requires At(c, t, m, head) && t.Node? && t.left.Node?
    requires RightRotated.requires(m, t.id)
    ensures RepCtx(c, RightRotated(m, t.id), t.left.id, if head == t.id then t.left.id else head)
  {
    RightRotatedDefined(c, t, m, head);
    var x, y := t.id, t.left.id;
    var m0 := m[y := m[y].(pParent := m[x].pParent)];
    CtxFrame(c, m, m0, x, head);
    SlotSetCtx(c, m0, x, y, head);
    CtxFrame(c, SlotSet(m0, x, y), RightRotated(m, x), y, if head == x then y else head);
  }

  /** A right rotation's pointer writes turn the represented tree, wherever it hangs. */
  lemma RightRotatedAt(c: Ctx<Ptr>, t: Tree<Ptr>, m: Memory, head: Ptr)
    requires At(c, t, m, head) && t.Node? && t.left.Node?
    ensures RightRotated.requires(m, t.id)
    ensures At(c, RotRight(t), RightRotated(m, t.id), if head == t.id then t.left.id else head)
    ensures RightRotated(m, t.id).Keys == m.Keys
  {
    RightRotatedDefined(c, t, m, head);
    RightRotatedTurns(c, t, m, head);
    RightRotatedCtx(c, t, m, head);
    RightTurnedRep(t, m, RightRotated(m, t.id), Parent(c));
    RotRightIds(t);
  }

  // ---------------------------------------------------------------- moving the hole

  /** The entries of the represented tree, in order, with the nodes that hold them. */
  ghost predicate Seen(c: Ctx<Ptr>, t: Tree<Ptr>, m: Memory, head: Ptr, s: seq<Entry<Ptr>>) {
    At(c, t, m, head) && InOrder(Plug(c, t)) == s
  }

  lemma MoveUp(c: Ctx<Ptr>, t: Tree<Ptr>, m: Memory, head: Ptr, s: seq<Entry<Ptr>>)
    requires Seen(c, t, m, head, s) && !c.Top?
    ensures Seen(c.up, Fill(c, t), m, head, s)
  {}

  function LeftOf(c: Ctx<Ptr>, t: Tree<Ptr>): Ctx<Ptr>
    requires t.Node?
  {
    InLeft(c, t.id, t.black, t.key, t.data, t.right)
  }

  function RightOf(c: Ctx<Ptr>, t: Tree<Ptr>): Ctx<Ptr>
    requires t.Node?
  {
    InRight(c, t.id, t.black, t.key, t.data, t.left)
  }

  lemma MoveLeft(c: Ctx<Ptr>, t: Tree<Ptr>, m: Memory, head: Ptr, s: seq<Entry<Ptr>>)
    requires Seen(c, t, m, head, s) && t.Node?
    ensures Seen(LeftOf(c, t), t.left, m, head, s)
  {}

  lemma MoveRight(c: Ctx<Ptr>, t: Tree<Ptr>, m: Memory, head: Ptr, s: seq<Entry<Ptr>>)
    requires Seen(c, t, m, head, s) && t.Node?
    ensures Seen(RightOf(c, t), t.right, m, head, s)
  {}

  function Coloured(m: Memory, p: Ptr, black: bool): Memory
    requires p in m
  {
    m[p := m[p].(isBlack := black)]
  }

  /** Colouring the node at the hole changes its colour only. */
  lemma Painted(c: Ctx<Ptr>, t: Tree<Ptr>, m: Memory, head: Ptr, s: seq<Entry<Ptr>>, black: bool)
    requires Seen(c, t, m, head, s) && t.Node?
    ensures t.id in m && Seen(c, t.(black := black), Coloured(m, t.id, black), head, s)
  {
    var m' := Coloured(m, t.id, black);
    RepFrame(t.left, m, m', t.id);
    RepFrame(t.right, m, m', t.id);
    CtxFrame(c, m, m', t.id, head);
    PlugSameOrder(c, t, t.(black := black));
  }

  lemma PaintedLeft(c: Ctx<Ptr>, t: Tree<Ptr>, m: Memory, head: Ptr, s: seq<Entry<Ptr>>, black: bool)
    requires Seen(c, t, m, head, s) && t.Node? && t.left.Node?
    ensures t.left.id in m
    ensures Seen(c, t.(left := t.left.(black := black)), Coloured(m, t.left.id, black), head, s)
  {
    MoveLeft(c, t, m, head, s);
    Painted(LeftOf(c, t), t.left, m, head, s, black);
    MoveUp(LeftOf(c, t), t.left.(black := black), Coloured(m, t.left.id, black), head, s);
  }

  lemma PaintedRight(c: Ctx<Ptr>, t: Tree<Ptr>, m: Memory, head: Ptr, s: seq<Entry<Ptr>>, black: bool)
    requires Seen(c, t, m, head, s) && t.Node? && t.right.Node?
    ensures t.right.id in m
    ensures Seen(c, t.(right := t.right.(black := black)), Coloured(m, t.right.id, black), head, s)
  {
    MoveRight(c, t, m, head, s);
    Painted(RightOf(c, t), t.right, m, head, s, black);
    MoveUp(RightOf(c, t), t.right.(black := black), Coloured(m, t.right.id, black), head, s);
  }

  /** Where the hole's parent and grandparent are found. */
  lemma Ancestors(c: Ctx<Ptr>, t: Tree<Ptr>, m: Memory, head: Ptr)
    requires At(c, t, m, head) && t.Node? && !c.Top? && !c.up.Top?
    ensures t.id in m && m[t.id].pParent == c.id && c.id in m && m[c.id].pParent == c.up.id && c.up.id in m
    ensures c.id != NULL && c.up.id != NULL
    ensures m[c.id].isBlack == c.black && m[c.up.id].isBlack == c.up.black
    ensures m[c.up.id].pLeft == c.id <==> c.up.InLeft?
    ensures m[c.up.id].pLeft == if c.up.InLeft? then c.id else Root(c.up.sib)
    ensures m[c.up.id].pRight == if c.up.InLeft? then Root(c.up.sib) else c.id
    ensures c.up.sib.Node? ==> Root(c.up.sib) in m && m[Root(c.up.sib)].isBlack == c.up.sib.black
    ensures c.up.sib.Node? <==> Root(c.up.sib) != NULL
    ensures c.InLeft? ==> m[c.id].pLeft == t.id && m[c.id].pRight == Root(c.sib)
    ensures c.InRight? ==> m[c.id].pRight == t.id && m[c.id].pLeft == Root(c.sib)
    ensures Root(c.sib) != t.id && head != t.id
  {
    RootIn(c.up.sib);
    RootIn(c.sib);
    RootIn(t);
    HeadInCtx(c, m, t.id, head);
    assert RepCtx(c.up, m, c.id, head);
  }

  /** Recolouring parent, uncle and grandparent leaves the entries alone. */
  lemma RecolouredSeen(c: Ctx<Ptr>, t: Tree<Ptr>, m: Memory, head: Ptr, s: seq<Entry<Ptr>>)
    requires Seen(c, t, m, head, s) && t.Node? && RedFrame(c) && !c.up.Top? && c.up.sib.Node?
    requires c.id in m && c.up.id in m && c.up.sib.id in m
    ensures Seen(c.up.up, Recoloured(c, t),
              Coloured(Coloured(Coloured(m, c.up.id, false), c.up.sib.id, true), c.id, true), head, s)
  {
    var p := Fill(c, t);
    var g, tg := c.up.up, Fill(c.up, p);
    MoveUp(c, t, m, head, s);
    MoveUp(c.up, p, m, head, s);
    Painted(g, tg, m, head, s, false);
    var m1, tg1 := Coloured(m, c.up.id, false), tg.(black := false);
    var m2 := Coloured(m1, c.up.sib.id, true);
    if c.up.InLeft? {
      PaintedRight(g, tg1, m1, head, s, true);
      PaintedLeft(g, tg1.(right := tg.right.(black := true)), m2, head, s, true);
    } else {
      PaintedLeft(g, tg1, m1, head, s, true);
      PaintedRight(g, tg1.(left := tg.left.(black := true)), m2, head, s, true);
    }
  }

  /** Grandparent red, parent black: the tree at the grandparent just before the outer rotation. */
  ghost function Tilted(c: Ctx<Ptr>, t: Tree<Ptr>): Tree<Ptr>
    requires !c.Top? && !c.up.Top?
  {
    Fill(c.up.(black := false), Fill(c.(black := true), t))
  }

  lemma TiltedSeen(c: Ctx<Ptr>, t: Tree<Ptr>, m: Memory, head: Ptr, s: seq<Entry<Ptr>>)
    requires Seen(c, t, m, head, s) && !c.Top? && !c.up.Top?
    requires c.id in m && c.up.id in m
    ensures Seen(c.up.up, Tilted(c, t), Coloured(Coloured(m, c.up.id, false), c.id, true), head, s)
  {
    var p := Fill(c, t);
    var g, tg := c.up.up, Fill(c.up, p);
    MoveUp(c, t, m, head, s);
    MoveUp(c.up, p, m, head, s);
    Painted(g, tg, m, head, s, false);
    var m1, tg1 := Coloured(m, c.up.id, false), tg.(black := false);
    if c.up.InLeft? {
      PaintedLeft(g, tg1, m1, head, s, true);
    } else {
      PaintedRight(g, tg1, m1, head, s, true);
    }
  }

  /** The loop guards of the balancing code, read off the context. */
  lemma Guards(c: Ctx<Ptr>, t: Tree<Ptr>, m: Memory, head: Ptr)
    requires At(c, t, m, head) && t.Node?
    ensures t.id != NULL && t.id in m && (head == t.id <==> c.Top?)
    ensures m[t.id].isBlack == t.black && m[t.id].pParent == Parent(c)
    ensures !c.Top? ==> c.id != NULL && c.id in m && m[c.id].isBlack == c.black
  {
    RootIn(t);
    HeadInCtx(c, m, t.id, head);
  }

  lemma {:induction false} MoveTop(c: Ctx<Ptr>, t: Tree<Ptr>, m: Memory, head: Ptr, s: seq<Entry<Ptr>>)
    requires Seen(c, t, m, head, s)
    ensures Seen(Top, Plug(c, t), m, head, s)
    decreases c
  {
    if !c.Top? {
      MoveUp(c, t, m, head, s);
      MoveTop(c.up, Fill(c, t), m, head, s);
    }
  }

  /** Colouring the root black ends the repair. */
  lemma RootBlackened(c: Ctx<Ptr>, t: Tree<Ptr>, m: Memory, head: Ptr, s: seq<Entry<Ptr>>) returns (t': Tree<Ptr>)
    requires Seen(c, t, m, head, s) && t.Node? && Balanced(t) && NoRedRed(t)
    requires CtxBalanced(c, BlackHeight(t)) && CtxNoRedRed(c) && !(IsRed(t) && RedFrame(c))
    ensures head in m && Seen(Top, t', Coloured(m, head, true), head, s) && RedBlack(t')
  {
    MoveTop(c, t, m, head, s);
    var w := Plug(c, t);
    if c.Top? {
      Painted(Top, w, m, head, s, true);
      t' := w.(black := true);
    } else {
      PlugRedBlack(c, t);
      PlugIds(c, t);
      Painted(Top, w, m, head, s, true);
      t' := w;
    }
  }

  // ---------------------------------------------------------------- around a hole that may be empty

  lemma MoveAcross(c: Ctx<Ptr>, x: Tree<Ptr>, m: Memory, head: Ptr, s: seq<Entry<Ptr>>)
    requires Seen(c, x, m, head, s) && !c.Top?
    ensures Seen(SibCtx(c, x), c.sib, m, head, s)
  {
    MoveUp(c, x, m, head, s);
    if c.InLeft? {
      MoveRight(c.up, Fill(c, x), m, head, s);
    } else {
      MoveLeft(c.up, Fill(c, x), m, head, s);
    }
  }

  lemma PaintedFrame(c: Ctx<Ptr>, x: Tree<Ptr>, m: Memory, head: Ptr, s: seq<Entry<Ptr>>, black: bool)
    requires Seen(c, x, m, head, s) && !c.Top?
    ensures c.id in m && Seen(WithBlack(c, black), x, Coloured(m, c.id, black), head, s)
  {
    MoveUp(c, x, m, head, s);
    var t := Fill(c, x);
    Painted(c.up, t, m, head, s, black);
    if c.InLeft? {
      MoveLeft(c.up, t.(black := black), Coloured(m, c.id, black), head, s);
    } else {
      MoveRight(c.up, t.(black := black), Coloured(m, c.id, black), head, s);
    }
  }

  lemma PaintedSib(c: Ctx<Ptr>, x: Tree<Ptr>, m: Memory, head: Ptr, s: seq<Entry<Ptr>>, black: bool)
    requires Seen(c, x, m, head, s) && !c.Top? && c.sib.Node?
    ensures c.sib.id in m && Seen(WithSib(c, c.sib.(black := black)), x, Coloured(m, c.sib.id, black), head, s)
  {
    MoveAcross(c, x, m, head, s);
    Painted(SibCtx(c, x), c.sib, m, head, s, black);
    MoveAcross(SibCtx(c, x), c.sib.(black := black), Coloured(m, c.sib.id, black), head, s);
  }

  lemma PaintedNephewLeft(c: Ctx<Ptr>, x: Tree<Ptr>, m: Memory, head: Ptr, s: seq<Entry<Ptr>>, black: bool)
    requires Seen(c, x, m, head, s) && !c.Top? && c.sib.Node? && c.sib.left.Node?
    ensures c.sib.left.id in m
    ensures Seen(WithSib(c, c.sib.(left := c.sib.left.(black := black))), x,
              Coloured(m, c.sib.left.id, black), head, s)
  {
    MoveAcross(c, x, m, head, s);
    PaintedLeft(SibCtx(c, x), c.sib, m, head, s, black);
    MoveAcross(SibCtx(c, x), c.sib.(left := c.sib.left.(black := black)), Coloured(m, c.sib.left.id, black), head, s);
  }

  lemma PaintedNephewRight(c: Ctx<Ptr>, x: Tree<Ptr>, m: Memory, head: Ptr, s: seq<Entry<Ptr>>, black: bool)
    requires Seen(c, x, m, head, s) && !c.Top? && c.sib.Node? && c.sib.right.Node?
    ensures c.sib.right.id in m
    ensures Seen(WithSib(c, c.sib.(right := c.sib.right.(black := black))), x,
              Coloured(m, c.sib.right.id, black), head, s)
  {
    MoveAcross(c, x, m, head, s);
    PaintedRight(SibCtx(c, x), c.sib, m, head, s, black);
    MoveAcross(SibCtx(c, x), c.sib.(right := c.sib.right.(black := black)), Coloured(m, c.sib.right.id, black), head, s);
  }

  /** What the code reads around a hole: its parent, and which side it hangs on. */
  lemma HoleGuards(c: Ctx<Ptr>, x: Tree<Ptr>, m: Memory, head: Ptr)
    requires At(c, x, m, head)
    ensures head == Root(x) <==> c.Top? || (x.Leaf? && head == NULL)
    ensures head == NULL ==> c.Top?
    ensures x.Node? ==> x.id != NULL && x.id in m && m[x.id].isBlack == x.black && m[x.id].pParent == Parent(c)
    ensures x.Node? <==> Root(x) != NULL
    ensures !c.Top? ==>
      && c.id != NULL && c.id in m && m[c.id].isBlack == c.black
      && (c.sib.Node? ==> (m[c.id].pLeft == Root(x) <==> c.InLeft?))
  {
    RootIn(x);
    HeadInCtx(c, m, Root(x), head);
    CtxNoNull(c, m, Root(x), head);
    if !c.Top? { RootIn(c.sib); }
  }

  /** What the code reads of the hole's sibling and its children. */
  lemma SiblingGuards(c: Ctx<Ptr>, x: Tree<Ptr>, m: Memory, head: Ptr)
    requires At(c, x, m, head) && !c.Top? && c.sib.Node?
    ensures c.id in m && (if c.InLeft? then m[c.id].pRight else m[c.id].pLeft) == c.sib.id
    ensures c.sib.id != NULL && c.sib.id in m && m[c.sib.id].isBlack == c.sib.black
    ensures m[c.sib.id].pLeft == Root(c.sib.left) && m[c.sib.id].pRight == Root(c.sib.right)
    ensures c.sib.left.Node? <==> Root(c.sib.left) != NULL
    ensures c.sib.right.Node? <==> Root(c.sib.right) != NULL
    ensures c.sib.left.Node? ==> c.sib.left.id in m && m[c.sib.left.id].isBlack == c.sib.left.black
    ensures c.sib.right.Node? ==> c.sib.right.id in m && m[c.sib.right.id].isBlack == c.sib.right.black
  {
    assert Rep(c.sib, m, c.id);
    assert Rep(c.sib.left, m, c.sib.id) && Rep(c.sib.right, m, c.sib.id);
  }

  /** What the stepping code reads at a node: its children, its parent and its side. */
  lemma ChildGuards(c: Ctx<Ptr>, t: Tree<Ptr>, m: Memory, head: Ptr)
    requires At(c, t, m, head) && t.Node?
    ensures t.id in m && t.id != NULL && m[t.id].pLeft == Root(t.left) && m[t.id].pRight == Root(t.right)
    ensures m[t.id].pParent == Parent(c) && m[t.id].key == t.key && m[t.id].data == t.data
    ensures t.left.Node? <==> Root(t.left) != NULL
    ensures t.right.Node? <==> Root(t.right) != NULL
    ensures c.Top? <==> Parent(c) == NULL
    ensures !c.Top? ==>
      && c.id in m
      && (m[c.id].pLeft == t.id <==> c.InLeft?) && (m[c.id].pRight == t.id <==> c.InRight?)
  {
    assert Rep(t.left, m, t.id) && Rep(t.right, m, t.id);
    RootIn(t);
    if !c.Top? { RootIn(c.sib); }
  }
}

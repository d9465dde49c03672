/** The shape of a red-black tree, free of the heap: trees, contexts with one hole, colours and order. */
module RbShape {
  import opened Bytes

  datatype Entry<N> = Entry(id: N, key: Blob, data: Blob)

  datatype Tree<N> =
    | Leaf
    | Node(left: Tree<N>, id: N, black: bool, key: Blob, data: Blob, right: Tree<N>)

  /** A tree with one hole; the hole's parent is the outermost constructor. */
  datatype Ctx<N> =
    | Top
    | InLeft(up: Ctx<N>, id: N, black: bool, key: Blob, data: Blob, sib: Tree<N>)
    | InRight(up: Ctx<N>, id: N, black: bool, key: Blob, data: Blob, sib: Tree<N>)

  function Plug<N>(c: Ctx<N>, t: Tree<N>): Tree<N>
    decreases c
  {
    match c
    case Top => t
    case InLeft(up, id, b, k, d, sib) => Plug(up, Node(t, id, b, k, d, sib))
    case InRight(up, id, b, k, d, sib) => Plug(up, Node(sib, id, b, k, d, t))
  }

  /** The innermost frame around the hole, filled. */
  function Fill<N>(c: Ctx<N>, t: Tree<N>): Tree<N>
    requires !c.Top?
  {
    if c.InLeft? then Node(t, c.id, c.black, c.key, c.data, c.sib)
    else Node(c.sib, c.id, c.black, c.key, c.data, t)
  }

  function WithBlack<N>(c: Ctx<N>, black: bool): Ctx<N>
    requires !c.Top?
  {
    if c.InLeft? then InLeft(c.up, c.id, black, c.key, c.data, c.sib)
    else InRight(c.up, c.id, black, c.key, c.data, c.sib)
  }

  function WithSib<N>(c: Ctx<N>, sib: Tree<N>): Ctx<N>
    requires !c.Top?
  {
    if c.InLeft? then InLeft(c.up, c.id, c.black, c.key, c.data, sib)
    else InRight(c.up, c.id, c.black, c.key, c.data, sib)
  }

  /** The context of the sibling when the hole holds t. */
  function SibCtx<N>(c: Ctx<N>, t: Tree<N>): Ctx<N>
    requires !c.Top?
  {
    if c.InLeft? then InRight(c.up, c.id, c.black, c.key, c.data, t)
    else InLeft(c.up, c.id, c.black, c.key, c.data, t)
  }

  function Depth<N>(c: Ctx<N>): nat {
    if c.Top? then 0 else 1 + Depth(c.up)
  }

  // ---------------------------------------------------------------- nodes

  ghost function Ids<N>(t: Tree<N>): set<N> {
    if t.Leaf? then {} else Ids(t.left) + {t.id} + Ids(t.right)
  }

  ghost function CtxIds<N>(c: Ctx<N>): set<N> {
    if c.Top? then {} else Ids(c.sib) + {c.id} + CtxIds(c.up)
  }

  ghost predicate Distinct<N>(t: Tree<N>) {
    t.Node? ==>
      && t.id !in Ids(t.left) && t.id !in Ids(t.right) && Ids(t.left) !! Ids(t.right)
      && Distinct(t.left) && Distinct(t.right)
  }

  ghost predicate CtxDistinct<N>(c: Ctx<N>) {
    !c.Top? ==>
      && c.id !in Ids(c.sib) && c.id !in CtxIds(c.up) && Ids(c.sib) !! CtxIds(c.up)
      && Distinct(c.sib) && CtxDistinct(c.up)
  }

  // ---------------------------------------------------------------- order

  ghost function InOrder<N>(t: Tree<N>): seq<Entry<N>> {
    if t.Leaf? then [] else InOrder(t.left) + [Entry(t.id, t.key, t.data)] + InOrder(t.right)
  }

  /** Entries before the hole, in order. */
  ghost function Before<N>(c: Ctx<N>): seq<Entry<N>> {
    match c
    case Top => []
    case InLeft(up, _, _, _, _, _) => Before(up)
    case InRight(up, id, _, k, d, sib) => Before(up) + (InOrder(sib) + [Entry(id, k, d)])
  }

  /** Entries after the hole, in order. */
  ghost function After<N>(c: Ctx<N>): seq<Entry<N>> {
    match c
    case Top => []
    case InLeft(up, id, _, k, d, sib) => ([Entry(id, k, d)] + InOrder(sib)) + After(up)
    case InRight(up, _, _, _, _, _) => After(up)
  }

  ghost predicate Sorted<N>(s: seq<Entry<N>>) {
    forall i, j :: 0 <= i < j < |s| ==> Less(s[i].key, s[j].key)
  }

  lemma RegroupRight<T>(p: seq<T>, a: seq<T>, m: seq<T>, b: seq<T>, q: seq<T>)
    ensures p + (a + m + b) + q == p + a + ((m + b) + q)
  {}

  lemma RegroupLeft<T>(p: seq<T>, a: seq<T>, m: seq<T>, b: seq<T>, q: seq<T>)
    ensures p + (a + m + b) + q == (p + (a + m)) + b + q
  {}

  lemma {:induction false} PlugInOrder<N>(c: Ctx<N>, t: Tree<N>)
    ensures InOrder(Plug(c, t)) == Before(c) + InOrder(t) + After(c)
    decreases c
  {
    match c
    case Top =>
    case InLeft(up, id, b, k, d, sib) =>
      PlugInOrder(up, Node(t, id, b, k, d, sib));
      RegroupRight(Before(up), InOrder(t), [Entry(id, k, d)], InOrder(sib), After(up));
    case InRight(up, id, b, k, d, sib) =>
      PlugInOrder(up, Node(sib, id, b, k, d, t));
      RegroupLeft(Before(up), InOrder(sib), [Entry(id, k, d)], InOrder(t), After(up));
  }

  /** X with right child Y becomes Y with left child X. */
  function RotLeft<N>(t: Tree<N>): Tree<N>
    requires t.Node? && t.right.Node?
  {
    var y := t.right;
    Node(Node(t.left, t.id, t.black, t.key, t.data, y.left), y.id, y.black, y.key, y.data, y.right)
  }

  /** X with left child Y becomes Y with right child X. */
  function RotRight<N>(t: Tree<N>): Tree<N>
    requires t.Node? && t.left.Node?
  {
    var y := t.left;
    Node(y.left, y.id, y.black, y.key, y.data, Node(y.right, t.id, t.black, t.key, t.data, t.right))
  }

  /** A rotation keeps the entries and their order. */
  lemma RotLeftInOrder<N>(t: Tree<N>)
    requires t.Node? && t.right.Node?
    ensures InOrder(RotLeft(t)) == InOrder(t)
  {
    Reassociate(InOrder(t.left), [Entry(t.id, t.key, t.data)], InOrder(t.right.left),
                [Entry(t.right.id, t.right.key, t.right.data)], InOrder(t.right.right));
  }

  lemma RotRightInOrder<N>(t: Tree<N>)
    requires t.Node? && t.left.Node?
    ensures InOrder(RotRight(t)) == InOrder(t)
  {
    Reassociate(InOrder(t.left.left), [Entry(t.left.id, t.left.key, t.left.data)], InOrder(t.left.right),
                [Entry(t.id, t.key, t.data)], InOrder(t.right));
  }

  lemma Reassociate<T>(a: seq<T>, x: seq<T>, b: seq<T>, y: seq<T>, c: seq<T>)
    ensures a + x + (b + y + c) == (a + x + b) + y + c
  {}

  /** A rotation keeps the nodes, each still in one place. */
  lemma RotLeftIds<N>(t: Tree<N>)
    requires t.Node? && t.right.Node? && Distinct(t)
    ensures Ids(RotLeft(t)) == Ids(t) && Distinct(RotLeft(t))
  {}

  lemma RotRightIds<N>(t: Tree<N>)
    requires t.Node? && t.left.Node? && Distinct(t)
    ensures Ids(RotRight(t)) == Ids(t) && Distinct(RotRight(t))
  {}

  // ---------------------------------------------------------------- colours

  predicate IsRed<N>(t: Tree<N>) {
    t.Node? && !t.black
  }

  predicate RedFrame<N>(c: Ctx<N>) {
    !c.Top? && !c.black
  }

  function Weight(black: bool): nat {
    if black then 1 else 0
  }

  function BlackHeight<N>(t: Tree<N>): nat {
    if t.Leaf? then 0 else BlackHeight(t.left) + Weight(t.black)
  }

  /** Every path from a node down to a NULL pointer meets the same number of black nodes. */
  ghost predicate Balanced<N>(t: Tree<N>) {
    t.Node? ==> BlackHeight(t.left) == BlackHeight(t.right) && Balanced(t.left) && Balanced(t.right)
  }

  /** No red node has a red child. */
  ghost predicate NoRedRed<N>(t: Tree<N>) {
    t.Node? ==>
      && (!t.black ==> !IsRed(t.left) && !IsRed(t.right))
      && NoRedRed(t.left) && NoRedRed(t.right)
  }

  ghost predicate RedBlack<N>(t: Tree<N>) {
    Balanced(t) && NoRedRed(t) && !IsRed(t)
  }

  /** Filling the hole with a balanced tree of black height h gives a balanced tree. */
  ghost predicate CtxBalanced<N>(c: Ctx<N>, h: nat)
    decreases c
  {
    !c.Top? ==> Balanced(c.sib) && BlackHeight(c.sib) == h && CtxBalanced(c.up, h + Weight(c.black))
  }

  /** No red-red edge outside the hole, and the root is black unless it is the hole itself. */
  ghost predicate CtxNoRedRed<N>(c: Ctx<N>) {
    !c.Top? ==>
      && (!c.black ==> !IsRed(c.sib) && !c.up.Top? && c.up.black)
      && NoRedRed(c.sib) && CtxNoRedRed(c.up)
  }

  ghost predicate ColoursFit<N>(c: Ctx<N>, t: Tree<N>) {
    IsRed(t) ==> !c.Top? && c.black
  }

  /** The red-black laws of the whole tree, read off a context and the tree in its hole. */
  lemma {:induction false} PlugRedBlack<N>(c: Ctx<N>, t: Tree<N>)
    ensures RedBlack(Plug(c, t)) <==>
      && Balanced(t) && CtxBalanced(c, BlackHeight(t))
      && NoRedRed(t) && CtxNoRedRed(c) && ColoursFit(c, t)
    decreases c
  {
    match c
    case Top =>
    case InLeft(up, id, b, k, d, sib) =>
      PlugRedBlack(up, Node(t, id, b, k, d, sib));
    case InRight(up, id, b, k, d, sib) =>
      PlugRedBlack(up, Node(sib, id, b, k, d, t));
  }

  lemma {:induction false} PlugIds<N>(c: Ctx<N>, t: Tree<N>)
    ensures Ids(Plug(c, t)) == CtxIds(c) + Ids(t)
    ensures Distinct(Plug(c, t)) <==> Distinct(t) && CtxDistinct(c) && Ids(t) !! CtxIds(c)
    decreases c
  {
    match c
    case Top =>
    case InLeft(up, id, b, k, d, sib) =>
      PlugIds(up, Node(t, id, b, k, d, sib));
    case InRight(up, id, b, k, d, sib) =>
      PlugIds(up, Node(sib, id, b, k, d, t));
  }

  /** Only the order of the hole's tree matters to the order of the whole. */
  lemma PlugSameOrder<N>(c: Ctx<N>, t: Tree<N>, t': Tree<N>)
    requires InOrder(t) == InOrder(t')
    ensures InOrder(Plug(c, t)) == InOrder(Plug(c, t'))
  {
    PlugInOrder(c, t);
    PlugInOrder(c, t');
  }

  // ---------------------------------------------------------------- insertion

  /** The tree in the hole is red and legal; the only possible fault is its own red parent. */
  ghost predicate InsertFault<N>(c: Ctx<N>, t: Tree<N>) {
    && IsRed(t) && Balanced(t) && NoRedRed(t)
    && CtxBalanced(c, BlackHeight(t)) && CtxNoRedRed(c)
  }

  /** Red parent and red uncle: colour both black and the grandparent red; the fault moves up two levels. */
  ghost function Recoloured<N>(c: Ctx<N>, t: Tree<N>): Tree<N>
    requires !c.Top? && !c.up.Top? && c.up.sib.Node?
  {
    Fill(c.up.(black := false, sib := c.up.sib.(black := true)), Fill(c.(black := true), t))
  }

  lemma RecolouredFault<N>(c: Ctx<N>, t: Tree<N>)
    requires InsertFault(c, t) && RedFrame(c) && IsRed(c.up.sib)
    ensures InsertFault(c.up.up, Recoloured(c, t))
  {
    var p, u := Fill(c.(black := true), t), c.up.sib.(black := true);
    var h := BlackHeight(t);
    assert CtxBalanced(c.up, h) && CtxNoRedRed(c.up);
    assert Balanced(p) && NoRedRed(p) && BlackHeight(p) == h + 1;
    assert Balanced(u) && NoRedRed(u) && BlackHeight(u) == h + 1;
  }

  /** The hole after the inner rotation: X and its parent P trade places, and P is the new X. */
  ghost function Straightened<N>(c: Ctx<N>, t: Tree<N>): (Ctx<N>, Tree<N>)
    requires !c.Top? && !c.up.Top? && t.Node?
  {
    if c.up.InLeft? && c.InRight? then
      var r := RotLeft(Fill(c, t));
      (InLeft(c.up, r.id, r.black, r.key, r.data, r.right), r.left)
    else if c.up.InRight? && c.InLeft? then
      var r := RotRight(Fill(c, t));
      (InRight(c.up, r.id, r.black, r.key, r.data, r.left), r.right)
    else (c, t)
  }

  lemma StraightenedFault<N>(c: Ctx<N>, t: Tree<N>)
    requires InsertFault(c, t) && RedFrame(c)
    ensures var (c', t') := Straightened(c, t);
      && InsertFault(c', t') && RedFrame(c') && c'.up == c.up && (c'.InLeft? <==> c.up.InLeft?)
  {}

  /** The subtree at the grandparent after it turned red, the parent black, and the outer rotation. */
  ghost function Lifted<N>(c: Ctx<N>, t: Tree<N>): Ctx<N>
    requires !c.Top? && !c.up.Top?
  {
    var g := c.up;
    if c.InLeft? then InLeft(g.up, c.id, true, c.key, c.data, Node(c.sib, g.id, false, g.key, g.data, g.sib))
    else InRight(g.up, c.id, true, c.key, c.data, Node(g.sib, g.id, false, g.key, g.data, c.sib))
  }

  lemma LiftedFault<N>(c: Ctx<N>, t: Tree<N>)
    requires InsertFault(c, t) && RedFrame(c) && !IsRed(c.up.sib) && (c.InLeft? <==> c.up.InLeft?)
    ensures InsertFault(Lifted(c, t), t) && !RedFrame(Lifted(c, t)) && !Lifted(c, t).Top?
  {
    var g := c.up;
    assert CtxBalanced(g, BlackHeight(t)) && CtxNoRedRed(g);
    var q := if c.InLeft? then Node(c.sib, g.id, false, g.key, g.data, g.sib)
             else Node(g.sib, g.id, false, g.key, g.data, c.sib);
    assert Balanced(q) && NoRedRed(q) && BlackHeight(q) == BlackHeight(t);
  }

  // ---------------------------------------------------------------- deletion

  function Blackened<N>(t: Tree<N>): Tree<N> {
    if t.Leaf? then t else t.(black := true)
  }

  /** The tree in the hole is one black node short, and legal once its root is black. */
  ghost predicate DeleteFault<N>(c: Ctx<N>, x: Tree<N>) {
    && Balanced(x) && NoRedRed(Blackened(x))
    && CtxBalanced(c, BlackHeight(x) + 1) && CtxNoRedRed(c)
  }

  /** A hole that is short of black always has a sibling, black-height one at least. */
  lemma DeleteFaultSibling<N>(c: Ctx<N>, x: Tree<N>)
    requires DeleteFault(c, x) && !c.Top?
    ensures c.sib.Node? && Balanced(c.sib) && NoRedRed(c.sib) && BlackHeight(c.sib) == BlackHeight(x) + 1
    ensures IsRed(c.sib) ==> c.black && c.sib.left.Node? && c.sib.right.Node?
    ensures IsRed(c.sib) ==> !IsRed(c.sib.left) && !IsRed(c.sib.right)
  {}

  lemma BlackenedRedBlack<N>(c: Ctx<N>, x: Tree<N>)
    requires DeleteFault(c, x) && (IsRed(x) || c.Top?)
    ensures RedBlack(Plug(c, Blackened(x)))
  {
    PlugRedBlack(c, Blackened(x));
  }

  /** Black sibling with black children: it turns red and the shortage moves to the parent. */
  lemma SiblingReddened<N>(c: Ctx<N>, x: Tree<N>)
    requires DeleteFault(c, x) && !IsRed(x) && !c.Top? && !IsRed(c.sib) && c.sib.Node?
    requires !IsRed(c.sib.left) && !IsRed(c.sib.right)
    ensures DeleteFault(c.up, Fill(WithSib(c, c.sib.(black := false)), x))
  {
    var s := c.sib.(black := false);
    assert Balanced(s) && NoRedRed(s) && BlackHeight(s) == BlackHeight(x);
    assert Blackened(x) == x;
  }

  /** Red sibling of a left hole: after the rotation the parent is red and the new sibling black. */
  ghost function RedSiblingLeft<N>(c: Ctx<N>): Ctx<N>
    requires c.InLeft? && c.sib.Node?
  {
    var q := c.sib;
    InLeft(InLeft(c.up, q.id, true, q.key, q.data, q.right), c.id, false, c.key, c.data, q.left)
  }

  lemma RedSiblingLeftFault<N>(c: Ctx<N>, x: Tree<N>)
    requires DeleteFault(c, x) && c.InLeft? && IsRed(c.sib)
    ensures DeleteFault(RedSiblingLeft(c), x) && RedFrame(RedSiblingLeft(c))
    ensures RedSiblingLeft(c).sib.Node? && !IsRed(RedSiblingLeft(c).sib)
  {
    DeleteFaultSibling(c, x);
  }

  /** The sibling's near child is its only red one: turn it into the far side. */
  ghost function FarRedLeft<N>(c: Ctx<N>): Ctx<N>
    requires c.InLeft? && c.sib.Node? && c.sib.left.Node?
  {
    InLeft(c.up, c.id, c.black, c.key, c.data, RotRight(c.sib.(black := false, left := c.sib.left.(black := true))))
  }

  lemma FarRedLeftFault<N>(c: Ctx<N>, x: Tree<N>)
    requires DeleteFault(c, x) && c.InLeft? && c.sib.Node? && c.sib.black
    requires !IsRed(c.sib.right) && IsRed(c.sib.left)
    ensures DeleteFault(FarRedLeft(c), x) && FarRedLeft(c).sib.black && IsRed(FarRedLeft(c).sib.right)
  {
    var w, n := c.sib, c.sib.left;
    assert Balanced(n) && NoRedRed(n) && BlackHeight(n) == BlackHeight(w.right) == BlackHeight(x);
    assert BlackHeight(n.left) == BlackHeight(n.right) == BlackHeight(x);
    var q := FarRedLeft(c).sib;
    assert Balanced(q.left) && Balanced(q.right) && NoRedRed(q.left) && NoRedRed(q.right);
    assert Balanced(q) && NoRedRed(q) && BlackHeight(q) == BlackHeight(x) + 1;
  }

  /** Far child red: the sibling takes the parent's place and colour, and the shortage is gone. */
  ghost function SettledLeft<N>(c: Ctx<N>, x: Tree<N>): Tree<N>
    requires c.InLeft? && c.sib.Node? && c.sib.right.Node?
  {
    var q := c.sib;
    RotLeft(Node(x, c.id, true, c.key, c.data, q.(black := c.black, right := q.right.(black := true))))
  }

  lemma SettledLeftRedBlack<N>(c: Ctx<N>, x: Tree<N>)
    requires DeleteFault(c, x) && !IsRed(x) && c.InLeft? && c.sib.Node? && c.sib.black && IsRed(c.sib.right)
    ensures RedBlack(Plug(c.up, SettledLeft(c, x)))
  {
    var w, t := c.sib, SettledLeft(c, x);
    assert Blackened(x) == x;
    assert BlackHeight(w.left) == BlackHeight(w.right) == BlackHeight(x);
    assert Balanced(w.right) && NoRedRed(w.right) && w.right.Node?;
    var p, f := t.left, t.right;
    assert f == w.right.(black := true) && p.left == x && p.right == w.left;
    assert Balanced(p) && NoRedRed(p) && BlackHeight(p) == BlackHeight(x) + 1;
    assert Balanced(f) && NoRedRed(f) && BlackHeight(f) == BlackHeight(x) + 1;
    assert Balanced(t) && NoRedRed(t) && BlackHeight(t) == BlackHeight(x) + 1 + Weight(c.black);
    PlugRedBlack(c.up, t);
  }

  /** Red sibling of a right hole: after the rotation the parent is red and the new sibling black. */
  ghost function RedSiblingRight<N>(c: Ctx<N>): Ctx<N>
    requires c.InRight? && c.sib.Node?
  {
    var q := c.sib;
    InRight(InRight(c.up, q.id, true, q.key, q.data, q.left), c.id, false, c.key, c.data, q.right)
  }

  lemma RedSiblingRightFault<N>(c: Ctx<N>, x: Tree<N>)
    requires DeleteFault(c, x) && c.InRight? && IsRed(c.sib)
    ensures DeleteFault(RedSiblingRight(c), x) && RedFrame(RedSiblingRight(c))
    ensures RedSiblingRight(c).sib.Node? && !IsRed(RedSiblingRight(c).sib)
  {
    DeleteFaultSibling(c, x);
  }

  /** The sibling's near child is its only red one: turn it into the far side. */
  ghost function FarRedRight<N>(c: Ctx<N>): Ctx<N>
    requires c.InRight? && c.sib.Node? && c.sib.right.Node?
  {
    InRight(c.up, c.id, c.black, c.key, c.data, RotLeft(c.sib.(black := false, right := c.sib.right.(black := true))))
  }

  lemma FarRedRightFault<N>(c: Ctx<N>, x: Tree<N>)
    requires DeleteFault(c, x) && c.InRight? && c.sib.Node? && c.sib.black
    requires !IsRed(c.sib.left) && IsRed(c.sib.right)
    ensures DeleteFault(FarRedRight(c), x) && FarRedRight(c).sib.black && IsRed(FarRedRight(c).sib.left)
  {
    var w, n := c.sib, c.sib.right;
    assert Balanced(n) && NoRedRed(n) && BlackHeight(n) == BlackHeight(w.left) == BlackHeight(x);
    assert BlackHeight(n.left) == BlackHeight(n.right) == BlackHeight(x);
    var q := FarRedRight(c).sib;
    assert Balanced(q.left) && Balanced(q.right) && NoRedRed(q.left) && NoRedRed(q.right);
    assert Balanced(q) && NoRedRed(q) && BlackHeight(q) == BlackHeight(x) + 1;
  }

  /** Far child red: the sibling takes the parent's place and colour, and the shortage is gone. */
  ghost function SettledRight<N>(c: Ctx<N>, x: Tree<N>): Tree<N>
    requires c.InRight? && c.sib.Node? && c.sib.left.Node?
  {
    var q := c.sib;
    RotRight(Node(q.(black := c.black, left := q.left.(black := true)), c.id, true, c.key, c.data, x))
  }

  lemma SettledRightRedBlack<N>(c: Ctx<N>, x: Tree<N>)
    requires DeleteFault(c, x) && !IsRed(x) && c.InRight? && c.sib.Node? && c.sib.black && IsRed(c.sib.left)
    ensures RedBlack(Plug(c.up, SettledRight(c, x)))
  {
    var w, t := c.sib, SettledRight(c, x);
    assert Blackened(x) == x;
    assert BlackHeight(w.left) == BlackHeight(w.right) == BlackHeight(x);
    assert Balanced(w.left) && NoRedRed(w.left) && w.left.Node?;
    var p, f := t.right, t.left;
    assert f == w.left.(black := true) && p.right == x && p.left == w.right;
    assert Balanced(p) && NoRedRed(p) && BlackHeight(p) == BlackHeight(x) + 1;
    assert Balanced(f) && NoRedRed(f) && BlackHeight(f) == BlackHeight(x) + 1;
    assert Balanced(t) && NoRedRed(t) && BlackHeight(t) == BlackHeight(x) + 1 + Weight(c.black);
    PlugRedBlack(c.up, t);
  }
}

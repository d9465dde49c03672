/** Positions in a table: what lies before and after a node, and planting or splicing a node there. */
module RbPlaces {
  import opened Bytes
  import opened RbShape
  import opened RbEntries
  import opened RbMemory

  type Entries = seq<Entry<Ptr>>

  function EntryOf(t: Tree<Ptr>): Entry<Ptr>
    requires t.Node?
  {
    Entry(t.id, t.key, t.data)
  }

  /** Entries before, and after, the node at the root of t. */
  ghost function Prior(c: Ctx<Ptr>, t: Tree<Ptr>): Entries
    requires t.Node?
  {
    Before(c) + InOrder(t.left)
  }

  ghost function Later(c: Ctx<Ptr>, t: Tree<Ptr>): Entries
    requires t.Node?
  {
    InOrder(t.right) + After(c)
  }

  function FirstId(s: Entries): Ptr {
    if s == [] then NULL else s[0].id
  }

  function LastId(s: Entries): Ptr {
    if s == [] then NULL else s[|s| - 1].id
  }

  lemma Regroup<T>(p: seq<T>, a: seq<T>, m: seq<T>, b: seq<T>, q: seq<T>)
    ensures p + (a + m + b) + q == (p + a) + m + (b + q)
  {}

  lemma Around3(c: Ctx<Ptr>, t: Tree<Ptr>)
    requires t.Node?
    ensures InOrder(Plug(c, t)) == Prior(c, t) + [EntryOf(t)] + Later(c, t)
  {
    PlugInOrder(c, t);
    Regroup(Before(c), InOrder(t.left), [EntryOf(t)], InOrder(t.right), After(c));
  }

  lemma SidesBelow(c: Ctx<Ptr>, t: Tree<Ptr>)
    requires t.Node?
    ensures |Before(RightOf(c, t))| == |Prior(c, t)| + 1 && After(RightOf(c, t)) == After(c)
    ensures |After(LeftOf(c, t))| == |Later(c, t)| + 1 && Before(LeftOf(c, t)) == Before(c)
  {}

  // ---------------------------------------------------------------- searching

  lemma AroundExtend(a: Entries, k: Blob, b: Entries, x: Entries)
    requires Around(a, k, b)
    requires forall i | 0 <= i < |x| :: Less(k, x[i].key)
    ensures Around(a, k, x + b)
  {}

  /** Going left from a larger node keeps the searched key between what is passed on either side. */
  lemma SearchLeft(c: Ctx<Ptr>, t: Tree<Ptr>, k: Blob)
    requires t.Node? && Sorted(InOrder(Plug(c, t))) && Around(Before(c), k, After(c)) && Less(k, t.key)
    ensures Around(Before(LeftOf(c, t)), k, After(LeftOf(c, t)))
  {
    Around3(c, t);
    SortedParts(Prior(c, t), EntryOf(t), Later(c, t));
    var x := [EntryOf(t)] + InOrder(t.right);
    forall i | 0 <= i < |x| ensures Less(k, x[i].key) {
      if i > 0 {
        assert x[i] == Later(c, t)[i - 1];
        LessTransitive(k, t.key, x[i].key);
      }
    }
    AroundExtend(Before(c), k, After(c), x);
  }

  lemma SearchRight(c: Ctx<Ptr>, t: Tree<Ptr>, k: Blob)
    requires t.Node? && Sorted(InOrder(Plug(c, t))) && Around(Before(c), k, After(c)) && Less(t.key, k)
    ensures Around(Before(RightOf(c, t)), k, After(RightOf(c, t)))
  {
    Around3(c, t);
    SortedParts(Prior(c, t), EntryOf(t), Later(c, t));
    var x := InOrder(t.left) + [EntryOf(t)];
    forall i | 0 <= i < |x| ensures Less(x[i].key, k) {
      if i < |x| - 1 {
        assert x[i] == Prior(c, t)[|Before(c)| + i];
        LessTransitive(x[i].key, t.key, k);
      }
    }
  }

  /** Entry i of a table is the root of the tree in some hole, with the rest around it. */
  lemma {:induction false} FocusAt(c0: Ctx<Ptr>, t0: Tree<Ptr>, m: Memory, head: Ptr, s: Entries, i: nat)
    returns (c: Ctx<Ptr>, t: Tree<Ptr>)
    requires Seen(c0, t0, m, head, s) && |Before(c0)| <= i < |Before(c0)| + |InOrder(t0)|
    ensures Seen(c, t, m, head, s) && t.Node?
    ensures |Prior(c, t)| == i && s == Prior(c, t) + [EntryOf(t)] + Later(c, t)
    ensures Plug(c, t) == Plug(c0, t0)
    decreases t0
  {
    var n := |Before(c0)| + |InOrder(t0.left)|;
    if i < n {
      MoveLeft(c0, t0, m, head, s);
      c, t := FocusAt(LeftOf(c0, t0), t0.left, m, head, s, i);
    } else if i == n {
      c, t := c0, t0;
      Around3(c, t);
    } else {
      MoveRight(c0, t0, m, head, s);
      c, t := FocusAt(RightOf(c0, t0), t0.right, m, head, s, i);
    }
  }

  // ---------------------------------------------------------------- planting and splicing

  /** The hole's slot, in its parent's record, set to p. */
  function SlotFilled(c: Ctx<Ptr>, m: Memory, p: Ptr): Memory
    requires !c.Top? ==> c.id in m
  {
    match c
    case Top => m
    case InLeft(_, n, _, _, _, _) => m[n := m[n].(pLeft := p)]
    case InRight(_, n, _, _, _, _) => m[n := m[n].(pRight := p)]
  }

  lemma SlotFilledCtx(c: Ctx<Ptr>, m: Memory, m0: Memory, hole: Ptr, p: Ptr, head: Ptr)
    requires CtxDistinct(c) && RepCtx(c, m, hole, head)
    requires SameOn(CtxIds(c), m, m0)
    ensures !c.Top? ==> c.id in m0
    ensures RepCtx(c, SlotFilled(c, m0, p), p, if c.Top? then p else head)
  {
    CtxFrame(c, m, m0, hole, head);
    if !c.Top? {
      var m' := SlotFilled(c, m0, p);
      RepFrame(c.sib, m0, m', c.id);
      CtxFrame(c.up, m0, m', c.id, head);
    }
  }

  function NewNode(pNode: Ptr, key: Blob, data: Blob): Tree<Ptr> {
    Node(Leaf, pNode, false, key, data, Leaf)
  }

  /** A fresh red node linked into an empty hole adds exactly its entry there. */
  lemma Planted(c: Ctx<Ptr>, m: Memory, head: Ptr, s: Entries, pNode: Ptr, key: Blob, data: Blob)
    requires Seen(c, Leaf, m, head, s) && pNode != NULL && pNode !in m
    ensures !c.Top? ==> c.id in m
    ensures var m0 := m[pNode := BtRbNode(key, data, false, Parent(c), NULL, NULL)];
      Seen(c, NewNode(pNode, key, data), SlotFilled(c, m0, pNode), if c.Top? then pNode else head,
           Before(c) + [Entry(pNode, key, data)] + After(c))
    ensures s == Before(c) + After(c)
  {
    CtxNoNull(c, m, NULL, head);
    var m0 := m[pNode := BtRbNode(key, data, false, Parent(c), NULL, NULL)];
    SlotFilledCtx(c, m, m0, NULL, pNode, head);
    PlugInOrder(c, NewNode(pNode, key, data));
    PlugInOrder<Ptr>(c, Leaf);
    assert [] + [Entry(pNode, key, data)] + [] == [Entry(pNode, key, data)];
    assert Before(c) + [] == Before(c);
  }

  function OnlyChild(t: Tree<Ptr>): Tree<Ptr>
    requires t.Node?
  {
    if t.left.Node? then t.left else t.right
  }

  /** The pointer writes that splice out the root of t, which has at most one child. */
  function Spliced(c: Ctx<Ptr>, t: Tree<Ptr>, m: Memory): Memory
    requires t.Node? && (!c.Top? ==> c.id in m)
    requires OnlyChild(t).Node? ==> OnlyChild(t).id in m
  {
    var m1 := SlotFilled(c, m, Root(OnlyChild(t)));
    if OnlyChild(t).Leaf? then m1 else m1[OnlyChild(t).id := m1[OnlyChild(t).id].(pParent := Parent(c))]
  }

  lemma SplicedDefined(c: Ctx<Ptr>, t: Tree<Ptr>, m: Memory, head: Ptr)
    requires At(c, t, m, head) && t.Node? && (t.left.Leaf? || t.right.Leaf?)
    ensures (!c.Top? ==> c.id in m) && (OnlyChild(t).Node? ==> OnlyChild(t).id in m)
    ensures t.id in m && m[t.id].pParent == Parent(c) && (c.Top? <==> Parent(c) == NULL)
    ensures m[t.id].pLeft == Root(t.left) && m[t.id].pRight == Root(t.right)
    ensures t.left.Node? <==> Root(t.left) != NULL
    ensures t.right.Node? <==> Root(t.right) != NULL
    ensures !c.Top? ==> (m[c.id].pLeft == t.id <==> c.InLeft?)
    ensures Rep(OnlyChild(t), m, t.id) && t.id != NULL && m[t.id].isBlack == t.black
  {
    assert Rep(t.left, m, t.id) && Rep(t.right, m, t.id);
    RootIn(t);
    if !c.Top? { RootIn(c.sib); }
  }

  /** Splicing leaves the only child in the hole and removes exactly the node's entry. */
  lemma SplicedSeen(c: Ctx<Ptr>, t: Tree<Ptr>, m: Memory, head: Ptr, s: Entries)
    requires Seen(c, t, m, head, s) && t.Node? && (t.left.Leaf? || t.right.Leaf?)
    requires Spliced.requires(c, t, m)
    ensures Seen(c, OnlyChild(t), Spliced(c, t, m), if c.Top? then Root(OnlyChild(t)) else head,
                 Prior(c, t) + Later(c, t))
    ensures s == Prior(c, t) + [EntryOf(t)] + Later(c, t)
  {
    SplicedDefined(c, t, m, head);
    var ch := OnlyChild(t);
    RootIn(ch);
    assert Ids(ch) <= Ids(t);
    var m1 := SlotFilled(c, m, Root(ch));
    SlotFilledCtx(c, m, m, t.id, Root(ch), head);
    RepFrame(ch, m, m1, t.id);
    var m2 := Spliced(c, t, m);
    CtxFrame(c, m1, m2, Root(ch), if c.Top? then Root(ch) else head);
    Adopted(ch, m1, m2, t.id, Parent(c));
    PlugInOrder(c, ch);
    Around3(c, t);
    SplicedOrder(c, t);
  }

  lemma SplicedOrder(c: Ctx<Ptr>, t: Tree<Ptr>)
    requires t.Node? && (t.left.Leaf? || t.right.Leaf?)
    ensures Before(c) + InOrder(OnlyChild(t)) + After(c) == Prior(c, t) + Later(c, t)
  {
    if t.left.Node? {
      assert InOrder(t.right) + After(c) == After(c);
    } else {
      assert Before(c) + InOrder(t.left) == Before(c);
    }
  }

  lemma FreedAt(c: Ctx<Ptr>, x: Tree<Ptr>, m: Memory, head: Ptr, s: Entries, p: Ptr)
    requires Seen(c, x, m, head, s) && p !in Ids(x) && p !in CtxIds(c)
    ensures Seen(c, x, m - {p}, head, s)
  {
    RepFrame(x, m, m - {p}, Parent(c));
    CtxFrame(c, m, m - {p}, Root(x), head);
  }

  /** Freeing a record outside the tree changes nothing. */
  lemma Freed(t: Tree<Ptr>, m: Memory, head: Ptr, s: Entries, p: Ptr)
    requires Seen(Top, t, m, head, s) && p !in Ids(t)
    ensures Seen(Top, t, m - {p}, head, s)
  {
    RepFrame(t, m, m - {p}, NULL);
  }

  /** Overwriting key and data in place keeps the node where it is. */
  lemma Overwritten(c: Ctx<Ptr>, t: Tree<Ptr>, m: Memory, head: Ptr, s: Entries, key: Blob, data: Blob)
    requires Seen(c, t, m, head, s) && t.Node?
    ensures t.id in m
    ensures Seen(c, t.(key := key, data := data), m[t.id := m[t.id].(key := key, data := data)], head,
                 Prior(c, t) + [Entry(t.id, key, data)] + Later(c, t))
    ensures s == Prior(c, t) + [EntryOf(t)] + Later(c, t)
  {
    var m' := m[t.id := m[t.id].(key := key, data := data)];
    RepFrame(t.left, m, m', t.id);
    RepFrame(t.right, m, m', t.id);
    CtxFrame(c, m, m', t.id, head);
    Around3(c, t);
    Around3(c, t.(key := key, data := data));
  }

  /** The leftmost node below a hole. */
  lemma {:induction false} LeftmostFocus(c0: Ctx<Ptr>, t0: Tree<Ptr>, m: Memory, head: Ptr, s: Entries)
    returns (c: Ctx<Ptr>, t: Tree<Ptr>)
    requires Seen(c0, t0, m, head, s) && t0.Node?
    ensures Seen(c, t, m, head, s) && t.Node? && t.left.Leaf? && Before(c) == Before(c0)
    ensures Prior(c, t) == Before(c0)
    ensures Plug(c, t) == Plug(c0, t0)
    decreases t0
  {
    if t0.left.Leaf? {
      c, t := c0, t0;
    } else {
      MoveLeft(c0, t0, m, head, s);
      c, t := LeftmostFocus(LeftOf(c0, t0), t0.left, m, head, s);
    }
  }

  /** The entry at a node is found where its count of predecessors says. */
  lemma EntryAt(c: Ctx<Ptr>, t: Tree<Ptr>, s: Entries)
    requires t.Node? && InOrder(Plug(c, t)) == s
    ensures |s| == |Prior(c, t)| + 1 + |Later(c, t)|
    ensures s[|Prior(c, t)|] == EntryOf(t)
    ensures s[..|Prior(c, t)|] == Prior(c, t) && s[|Prior(c, t)| + 1..] == Later(c, t)
  {
    Around3(c, t);
  }

  /** Colours are untouched when only key and data of a node change. */
  lemma OverwrittenRedBlack(c: Ctx<Ptr>, t: Tree<Ptr>, key: Blob, data: Blob)
    requires t.Node? && RedBlack(Plug(c, t))
    ensures RedBlack(Plug(c, t.(key := key, data := data)))
    ensures Ids(Plug(c, t.(key := key, data := data))) == Ids(Plug(c, t))
  {
    var t' := t.(key := key, data := data);
    PlugRedBlack(c, t);
    PlugRedBlack(c, t');
    PlugIds(c, t);
    PlugIds(c, t');
    assert BlackHeight(t') == BlackHeight(t);
  }

  /** What splicing leaves to repair: nothing below a red node, one black node below a black one. */
  lemma SplicedFault(c: Ctx<Ptr>, t: Tree<Ptr>)
    requires t.Node? && (t.left.Leaf? || t.right.Leaf?) && RedBlack(Plug(c, t))
    ensures t.black ==> DeleteFault(c, OnlyChild(t))
    ensures !t.black ==> RedBlack(Plug(c, OnlyChild(t)))
  {
    PlugRedBlack(c, t);
    PlugRedBlack(c, OnlyChild(t));
  }

  /** The spliced node holds none of the remaining entries. */
  lemma SplicedGone(c: Ctx<Ptr>, t: Tree<Ptr>)
    requires t.Node? && (t.left.Leaf? || t.right.Leaf?) && Apart(c, t)
    ensures IdSet(Prior(c, t) + Later(c, t)) == Ids(Plug(c, t)) - {t.id}
    ensures t.id in Ids(Plug(c, t))
  {
    var ch := OnlyChild(t);
    PlugInOrder(c, ch);
    SplicedOrder(c, t);
    IdsInOrder(Plug(c, ch));
    PlugIds(c, ch);
    PlugIds(c, t);
    assert Ids(t) == Ids(ch) + {t.id};
  }

  /** A node's record holds the entry listed for it. */
  lemma RecordAt(t0: Tree<Ptr>, m: Memory, head: Ptr, s: Entries, i: nat)
    requires Seen(Top, t0, m, head, s) && i < |s|
    ensures s[i].id in m && s[i].id != NULL && m[s[i].id].key == s[i].key && m[s[i].id].data == s[i].data
  {
    var c, t := FocusAt(Top, t0, m, head, s, i);
    EntryAt(c, t, s);
    ChildGuards(c, t, m, head);
  }

  lemma DropSecond<T>(a: seq<T>, x: T, b: seq<T>, p: seq<T>, y: T, q: seq<T>)
    requires a + [x] + b == p + [y] + q && |p| == |a| + 1
    ensures p + q == a + [x] + b[1..]
  {
    var s := a + [x] + b;
    assert p == s[..|a| + 1] == a + [x];
    assert q == s[|a| + 2..] == b[1..];
  }

  /** With key and data of t's node overwritten, the successor is a node without left child in t's right subtree. */
  lemma SuccessorFocus(c: Ctx<Ptr>, t: Tree<Ptr>, m: Memory, head: Ptr, s: Entries, key: Blob, data: Blob)
    returns (c1: Ctx<Ptr>, t1: Tree<Ptr>)
    requires Seen(c, t, m, head, s) && t.Node? && t.right.Node? && RedBlack(Plug(c, t))
    ensures t.id in m && |Prior(c, t)| + 1 < |s|
    ensures var i, e := |Prior(c, t)|, Entry(t.id, key, data);
      && Seen(c1, t1, m[t.id := m[t.id].(key := key, data := data)], head, s[..i] + [e] + s[i + 1..])
      && t1.Node? && t1.left.Leaf? && RedBlack(Plug(c1, t1)) && t1.id == s[i + 1].id
      && Ids(Plug(c1, t1)) == Ids(Plug(c, t))
      && Prior(c1, t1) + Later(c1, t1) == s[..i] + [e] + s[i + 2..]
  {
    var i, e, t2 := |Prior(c, t)|, Entry(t.id, key, data), t.(key := key, data := data);
    var m2 := m[t.id := m[t.id].(key := key, data := data)];
    EntryAt(c, t, s);
    Overwritten(c, t, m, head, s, key, data);
    OverwrittenRedBlack(c, t, key, data);
    var s2 := s[..i] + [e] + s[i + 1..];
    MoveRight(c, t2, m2, head, s2);
    SidesBelow(c, t2);
    c1, t1 := LeftmostFocus(RightOf(c, t2), t.right, m2, head, s2);
    Around3(c1, t1);
    assert |Prior(c1, t1)| == i + 1;
    DropSecond(s[..i], e, s[i + 1..], Prior(c1, t1), EntryOf(t1), Later(c1, t1));
    EntryAt(c1, t1, s2);
    assert s2[i + 1] == s[i + 1];
  }
}

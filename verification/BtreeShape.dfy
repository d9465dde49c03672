/** Database pages of the file B-tree and the tree they form, by height: 0 is no page, 1 a leaf. */
module BtreeShape {
  import opened FileFormat
  import opened Bytes

  /** Keys have at least one byte. */
  type Key = b: Blob | |b| >= 1 witness [0]

  datatype Payload = Payload(key: Key, data: Blob)

  /** A cell: the child page before it, and its entry. */
  datatype Cell = Cell(leftChild: Pgno, item: Payload)

  datatype MemPage = MemPage(apCell: seq<Cell>, rightChild: Pgno, pParent: Pgno)

  type Pager = map<Pgno, MemPage>

  // ---------------------------------------------------------------- order, pages, shape

  /** The entries below page p, in order. */
  ghost function InOrder(m: Pager, p: Pgno, h: nat): seq<Payload>
    decreases h, 0
  {
    if h == 0 || p !in m then []
    else CellsOrder(m, m[p].apCell, h - 1) + InOrder(m, m[p].rightChild, h - 1)
  }

  /** Each cell's subtree followed by its entry; the page's right-most subtree is not included. */
  ghost function CellsOrder(m: Pager, cells: seq<Cell>, h: nat): seq<Payload>
    decreases h, |cells|
  {
    if cells == [] then []
    else InOrder(m, cells[0].leftChild, h) + [cells[0].item] + CellsOrder(m, cells[1..], h)
  }

  /** The pages of the tree at p, with multiplicity. */
  ghost function Bag(m: Pager, p: Pgno, h: nat): multiset<Pgno>
    decreases h, 0
  {
    if h == 0 || p !in m then multiset{}
    else multiset{p} + CellsBag(m, m[p].apCell, h - 1) + Bag(m, m[p].rightChild, h - 1)
  }

  ghost function CellsBag(m: Pager, cells: seq<Cell>, h: nat): multiset<Pgno>
    decreases h, |cells|
  {
    if cells == [] then multiset{}
    else Bag(m, cells[0].leftChild, h) + CellsBag(m, cells[1..], h)
  }

  /** Page p is a B-tree of height h whose pages know their parents; all leaves are equally deep. */
  ghost predicate Tree(m: Pager, p: Pgno, par: Pgno, h: nat)
    decreases h, 0
  {
    if h == 0 then p == 0
    else
      && p != 0 && p in m && m[p].pParent == par
      && CellsTree(m, m[p].apCell, p, h - 1) && Tree(m, m[p].rightChild, p, h - 1)
  }

  ghost predicate CellsTree(m: Pager, cells: seq<Cell>, par: Pgno, h: nat)
    decreases h, |cells|
  {
    cells != [] ==> Tree(m, cells[0].leftChild, par, h) && CellsTree(m, cells[1..], par, h)
  }

  /** No page is used twice. */
  ghost predicate Once(b: multiset<Pgno>) {
    forall p | p in b :: b[p] == 1
  }

  ghost predicate SameOn(b: multiset<Pgno>, m: Pager, m': Pager) {
    forall p | p in b :: p in m && p in m' && m'[p] == m[p]
  }

  // ---------------------------------------------------------------- lists of cells

  lemma {:induction false} CellsOrderConcat(m: Pager, a: seq<Cell>, b: seq<Cell>, h: nat)
    ensures CellsOrder(m, a + b, h) == CellsOrder(m, a, h) + CellsOrder(m, b, h)
    decreases |a|
  {
    if a == [] {
      assert a + b == b;
    } else {
      assert (a + b)[1..] == a[1..] + b;
      CellsOrderConcat(m, a[1..], b, h);
    }
  }

  lemma {:induction false} CellsBagConcat(m: Pager, a: seq<Cell>, b: seq<Cell>, h: nat)
    ensures CellsBag(m, a + b, h) == CellsBag(m, a, h) + CellsBag(m, b, h)
    decreases |a|
  {
    if a == [] {
      assert a + b == b;
    } else {
      assert (a + b)[1..] == a[1..] + b;
      CellsBagConcat(m, a[1..], b, h);
    }
  }

  lemma {:induction false} CellsTreeConcat(m: Pager, a: seq<Cell>, b: seq<Cell>, par: Pgno, h: nat)
    ensures CellsTree(m, a + b, par, h) <==> CellsTree(m, a, par, h) && CellsTree(m, b, par, h)
    decreases |a|
  {
    if a == [] {
      assert a + b == b;
    } else {
      assert (a + b)[1..] == a[1..] + b;
      CellsTreeConcat(m, a[1..], b, par, h);
    }
  }

  // ---------------------------------------------------------------- frames

  lemma SameOnParts(a: multiset<Pgno>, b: multiset<Pgno>, c: multiset<Pgno>, m: Pager, m': Pager)
    requires SameOn(a + b + c, m, m')
    ensures SameOn(a, m, m') && SameOn(b, m, m') && SameOn(c, m, m')
  {
    forall p | p in a || p in b || p in c ensures p in m && p in m' && m'[p] == m[p] {
      assert p in a + b + c;
    }
  }

  /** Pages outside a tree do not matter to it. */
  lemma {:induction false} Frame(m: Pager, m': Pager, p: Pgno, par: Pgno, h: nat)
    requires Tree(m, p, par, h) && SameOn(Bag(m, p, h), m, m')
    ensures Tree(m', p, par, h) && InOrder(m', p, h) == InOrder(m, p, h) && Bag(m', p, h) == Bag(m, p, h)
    decreases h, 0
  {
    if h > 0 {
      SameOnParts(multiset{p}, CellsBag(m, m[p].apCell, h - 1), Bag(m, m[p].rightChild, h - 1), m, m');
      assert p in multiset{p};
      CellsFrame(m, m', m[p].apCell, p, h - 1);
      Frame(m, m', m[p].rightChild, p, h - 1);
    }
  }

  lemma {:induction false} CellsFrame(m: Pager, m': Pager, cells: seq<Cell>, par: Pgno, h: nat)
    requires CellsTree(m, cells, par, h) && SameOn(CellsBag(m, cells, h), m, m')
    ensures CellsTree(m', cells, par, h)
    ensures CellsOrder(m', cells, h) == CellsOrder(m, cells, h) && CellsBag(m', cells, h) == CellsBag(m, cells, h)
    decreases h, |cells|
  {
    if cells != [] {
      Frame(m, m', cells[0].leftChild, par, h);
      CellsFrame(m, m', cells[1..], par, h);
    }
  }

  /** Giving a tree another parent changes only its root's back pointer. */
  lemma {:induction false} Reparented(m: Pager, m': Pager, p: Pgno, par: Pgno, par': Pgno, h: nat)
    requires Tree(m, p, par, h)
    requires h > 0 ==> p in m' && m'[p] == m[p].(pParent := par')
    requires h > 0 ==> SameOn(CellsBag(m, m[p].apCell, h - 1), m, m') && SameOn(Bag(m, m[p].rightChild, h - 1), m, m')
    ensures Tree(m', p, par', h) && InOrder(m', p, h) == InOrder(m, p, h) && Bag(m', p, h) == Bag(m, p, h)
  {
    if h > 0 {
      CellsFrame(m, m', m[p].apCell, p, h - 1);
      Frame(m, m', m[p].rightChild, p, h - 1);
    }
  }

  // ---------------------------------------------------------------- a tree with a hole

  /** The pages above and beside a hole; its parent's cells left of it, and what follows it there. */
  datatype Ctx =
    | Top
    | InCell(up: Ctx, pg: Pgno, left: seq<Cell>, item: Payload, rest: seq<Cell>, right: Pgno)
    | AtRight(up: Ctx, pg: Pgno, left: seq<Cell>)

  function Par(c: Ctx): Pgno {
    if c.Top? then 0 else c.pg
  }

  /** The parent's page when the hole is filled with page p. */
  function ParentPage(c: Ctx, p: Pgno): MemPage
    requires !c.Top?
  {
    if c.InCell? then MemPage(c.left + [Cell(p, c.item)] + c.rest, c.right, Par(c.up))
    else MemPage(c.left, p, Par(c.up))
  }

  /** The pages around a hole of height h that holds page p. */
  ghost predicate CtxTree(m: Pager, c: Ctx, p: Pgno, h: nat)
    decreases c
  {
    !c.Top? ==>
      && c.pg != 0 && c.pg in m && m[c.pg] == ParentPage(c, p)
      && CellsTree(m, c.left, c.pg, h)
      && (c.InCell? ==> CellsTree(m, c.rest, c.pg, h) && Tree(m, c.right, c.pg, h))
      && CtxTree(m, c.up, c.pg, h + 1)
  }

  ghost function CtxBag(m: Pager, c: Ctx, h: nat): multiset<Pgno>
    decreases c
  {
    if c.Top? then multiset{}
    else multiset{c.pg} + CellsBag(m, c.left, h) + RestBag(m, c, h) + CtxBag(m, c.up, h + 1)
  }

  ghost function RestBag(m: Pager, c: Ctx, h: nat): multiset<Pgno> {
    if c.InCell? then CellsBag(m, c.rest, h) + Bag(m, c.right, h) else multiset{}
  }

  ghost function Before(m: Pager, c: Ctx, h: nat): seq<Payload>
    decreases c
  {
    if c.Top? then [] else Before(m, c.up, h + 1) + CellsOrder(m, c.left, h)
  }

  ghost function After(m: Pager, c: Ctx, h: nat): seq<Payload>
    decreases c
  {
    if c.Top? then [] else RestOrder(m, c, h) + After(m, c.up, h + 1)
  }

  ghost function RestOrder(m: Pager, c: Ctx, h: nat): seq<Payload> {
    if c.InCell? then [c.item] + CellsOrder(m, c.rest, h) + InOrder(m, c.right, h) else []
  }

  /** A whole tree: page p of height h in context c, no page twice. */
  ghost predicate At(m: Pager, c: Ctx, p: Pgno, h: nat) {
    Tree(m, p, Par(c), h) && CtxTree(m, c, p, h) && Once(CtxBag(m, c, h) + Bag(m, p, h))
  }

  ghost function Entries(m: Pager, c: Ctx, p: Pgno, h: nat): seq<Payload> {
    Before(m, c, h) + InOrder(m, p, h) + After(m, c, h)
  }

  lemma OnceParts(a: multiset<Pgno>, b: multiset<Pgno>)
    requires Once(a + b)
    ensures Once(a) && Once(b) && a !! b
  {
    forall p | p in a || p in b ensures a[p] + b[p] == 1 {
      assert p in a + b;
    }
  }

  /** The pages of a context, level by level, are unchanged. */
  ghost predicate CtxSame(m: Pager, m': Pager, c: Ctx, h: nat)
    decreases c
  {
    !c.Top? ==>
      && c.pg in m && c.pg in m' && m'[c.pg] == m[c.pg]
      && SameOn(CellsBag(m, c.left, h), m, m') && SameOn(RestBag(m, c, h), m, m')
      && CtxSame(m, m', c.up, h + 1)
  }

  lemma {:induction false} CtxParts(m: Pager, m': Pager, c: Ctx, h: nat)
    requires SameOn(CtxBag(m, c, h), m, m')
    ensures CtxSame(m, m', c, h)
    decreases c
  {
    if !c.Top? {
      var a, b, d := CellsBag(m, c.left, h), RestBag(m, c, h), CtxBag(m, c.up, h + 1);
      forall p | p == c.pg || p in a || p in b || p in d ensures p in m && p in m' && m'[p] == m[p] {
        assert p in CtxBag(m, c, h);
      }
      CtxParts(m, m', c.up, h + 1);
    }
  }

  /** One level of a context. */
  lemma LevelFrame(m: Pager, m': Pager, c: Ctx, p: Pgno, h: nat)
    requires CtxTree(m, c, p, h) && CtxSame(m, m', c, h) && !c.Top?
    ensures CellsTree(m', c.left, c.pg, h) && CellsOrder(m', c.left, h) == CellsOrder(m, c.left, h)
    ensures CellsBag(m', c.left, h) == CellsBag(m, c.left, h)
    ensures c.InCell? ==> CellsTree(m', c.rest, c.pg, h) && Tree(m', c.right, c.pg, h)
    ensures RestBag(m', c, h) == RestBag(m, c, h) && RestOrder(m', c, h) == RestOrder(m, c, h)
  {
    CellsFrame(m, m', c.left, c.pg, h);
    RestFrame(m, m', c, h);
  }

  lemma {:induction false} CtxTreeFrame(m: Pager, m': Pager, c: Ctx, p: Pgno, h: nat)
    requires CtxTree(m, c, p, h) && CtxSame(m, m', c, h)
    ensures CtxTree(m', c, p, h)
    decreases c
  {
    if !c.Top? {
      LevelFrame(m, m', c, p, h);
      CtxTreeFrame(m, m', c.up, c.pg, h + 1);
    }
  }

  lemma {:induction false} CtxBagFrame(m: Pager, m': Pager, c: Ctx, p: Pgno, h: nat)
    requires CtxTree(m, c, p, h) && CtxSame(m, m', c, h)
    ensures CtxBag(m', c, h) == CtxBag(m, c, h)
    decreases c
  {
    if !c.Top? {
      LevelFrame(m, m', c, p, h);
      CtxBagFrame(m, m', c.up, c.pg, h + 1);
    }
  }

  lemma {:induction false} BeforeFrame(m: Pager, m': Pager, c: Ctx, p: Pgno, h: nat)
    requires CtxTree(m, c, p, h) && CtxSame(m, m', c, h)
    ensures Before(m', c, h) == Before(m, c, h)
    decreases c
  {
    if !c.Top? {
      LevelFrame(m, m', c, p, h);
      BeforeFrame(m, m', c.up, c.pg, h + 1);
    }
  }

  lemma {:induction false} AfterFrame(m: Pager, m': Pager, c: Ctx, p: Pgno, h: nat)
    requires CtxTree(m, c, p, h) && CtxSame(m, m', c, h)
    ensures After(m', c, h) == After(m, c, h)
    decreases c
  {
    if !c.Top? {
      LevelFrame(m, m', c, p, h);
      AfterFrame(m, m', c.up, c.pg, h + 1);
    }
  }

  /** Pages away from a context do not matter to it. */
  lemma CtxFrame(m: Pager, m': Pager, c: Ctx, p: Pgno, h: nat)
    requires CtxTree(m, c, p, h) && SameOn(CtxBag(m, c, h), m, m')
    ensures CtxTree(m', c, p, h) && CtxBag(m', c, h) == CtxBag(m, c, h)
    ensures Before(m', c, h) == Before(m, c, h) && After(m', c, h) == After(m, c, h)
  {
    CtxParts(m, m', c, h);
    CtxTreeFrame(m, m', c, p, h);
    CtxBagFrame(m, m', c, p, h);
    BeforeFrame(m, m', c, p, h);
    AfterFrame(m, m', c, p, h);
  }

  lemma RestFrame(m: Pager, m': Pager, c: Ctx, h: nat)
    requires c.InCell? ==> CellsTree(m, c.rest, c.pg, h) && Tree(m, c.right, c.pg, h)
    requires SameOn(RestBag(m, c, h), m, m')
    ensures c.InCell? ==> CellsTree(m', c.rest, c.pg, h) && Tree(m', c.right, c.pg, h)
    ensures RestBag(m', c, h) == RestBag(m, c, h) && RestOrder(m', c, h) == RestOrder(m, c, h)
  {
    if c.InCell? {
      SameOnParts(multiset{}, CellsBag(m, c.rest, h), Bag(m, c.right, h), m, m');
      CellsFrame(m, m', c.rest, c.pg, h);
      Frame(m, m', c.right, c.pg, h);
    }
  }

  lemma OneCell(m: Pager, cell: Cell, par: Pgno, h: nat)
    ensures CellsOrder(m, [cell], h) == InOrder(m, cell.leftChild, h) + [cell.item]
    ensures CellsBag(m, [cell], h) == Bag(m, cell.leftChild, h)
    ensures CellsTree(m, [cell], par, h) <==> Tree(m, cell.leftChild, par, h)
  {
    assert [cell][1..] == [];
  }

  /** The parent's own tree, once the hole is filled. */
  lemma ParentTree(m: Pager, c: Ctx, p: Pgno, h: nat)
    requires !c.Top? && CtxTree(m, c, p, h) && Tree(m, p, c.pg, h)
    ensures Tree(m, c.pg, Par(c.up), h + 1)
    ensures InOrder(m, c.pg, h + 1) == CellsOrder(m, c.left, h) + InOrder(m, p, h) + RestOrder(m, c, h)
    ensures Bag(m, c.pg, h + 1) == multiset{c.pg} + CellsBag(m, c.left, h) + RestBag(m, c, h) + Bag(m, p, h)
  {
    if c.InCell? {
      var cell := Cell(p, c.item);
      OneCell(m, cell, c.pg, h);
      CellsTreeConcat(m, c.left + [cell], c.rest, c.pg, h);
      CellsTreeConcat(m, c.left, [cell], c.pg, h);
      CellsBagConcat(m, c.left + [cell], c.rest, h);
      CellsBagConcat(m, c.left, [cell], h);
      ParentOrder(m, c, p, h);
    }
  }

  lemma ParentOrder(m: Pager, c: Ctx, p: Pgno, h: nat)
    requires c.InCell? && c.pg in m && m[c.pg] == ParentPage(c, p)
    ensures InOrder(m, c.pg, h + 1) == CellsOrder(m, c.left, h) + InOrder(m, p, h) + RestOrder(m, c, h)
  {
    var cell := Cell(p, c.item);
    OneCell(m, cell, c.pg, h);
    CellsOrderConcat(m, c.left + [cell], c.rest, h);
    CellsOrderConcat(m, c.left, [cell], h);
    Reassociate(CellsOrder(m, c.left, h), InOrder(m, p, h), [c.item], CellsOrder(m, c.rest, h), InOrder(m, c.right, h));
  }

  lemma Reassociate<T>(a: seq<T>, b: seq<T>, x: seq<T>, c: seq<T>, d: seq<T>)
    ensures a + (b + x) + c + d == a + b + (x + c + d)
  {}

  lemma Regroup<T>(a: seq<T>, b: seq<T>, c: seq<T>, d: seq<T>, e: seq<T>)
    ensures a + (b + c + d) + e == (a + b) + c + (d + e)
  {}

  /** All pages of a tree in its context. */
  ghost function Pages(m: Pager, c: Ctx, p: Pgno, h: nat): multiset<Pgno> {
    CtxBag(m, c, h) + Bag(m, p, h)
  }

  lemma ParentWhole(m: Pager, c: Ctx, p: Pgno, h: nat)
    requires !c.Top? && CtxTree(m, c, p, h) && Tree(m, p, c.pg, h)
    ensures Pages(m, c.up, c.pg, h + 1) == Pages(m, c, p, h)
    ensures Entries(m, c.up, c.pg, h + 1) == Entries(m, c, p, h)
  {
    ParentTree(m, c, p, h);
    Regroup(Before(m, c.up, h + 1), CellsOrder(m, c.left, h), InOrder(m, p, h), RestOrder(m, c, h), After(m, c.up, h + 1));
  }

  /** One level up: the same tree seen from the parent. */
  lemma MoveUp(m: Pager, c: Ctx, p: Pgno, h: nat)
    requires At(m, c, p, h) && !c.Top?
    ensures At(m, c.up, c.pg, h + 1) && Entries(m, c.up, c.pg, h + 1) == Entries(m, c, p, h)
    ensures Pages(m, c.up, c.pg, h + 1) == Pages(m, c, p, h)
  {
    ParentTree(m, c, p, h);
    ParentWhole(m, c, p, h);
  }

  function Child(pg: MemPage, j: nat): Pgno {
    if j < |pg.apCell| then pg.apCell[j].leftChild else pg.rightChild
  }

  /** The context of child j of page p. */
  function ChildCtx(up: Ctx, p: Pgno, pg: MemPage, j: nat): Ctx {
    if j < |pg.apCell| then InCell(up, p, pg.apCell[..j], pg.apCell[j].item, pg.apCell[j + 1..], pg.rightChild)
    else AtRight(up, p, pg.apCell)
  }

  lemma ChildInPlace(m: Pager, up: Ctx, p: Pgno, h: nat, j: nat)
    requires Tree(m, p, Par(up), h + 1) && CtxTree(m, up, p, h + 1) && j <= |m[p].apCell|
    ensures CtxTree(m, ChildCtx(up, p, m[p], j), Child(m[p], j), h) && Tree(m, Child(m[p], j), p, h)
  {
    var cells := m[p].apCell;
    if j < |cells| {
      assert cells == cells[..j] + [cells[j]] + cells[j + 1..];
      CellsTreeConcat(m, cells[..j] + [cells[j]], cells[j + 1..], p, h);
      CellsTreeConcat(m, cells[..j], [cells[j]], p, h);
      OneCell(m, cells[j], p, h);
    }
  }

  /** One level down, to any child. */
  lemma MoveDown(m: Pager, up: Ctx, p: Pgno, h: nat, j: nat)
    requires At(m, up, p, h + 1) && j <= |m[p].apCell|
    ensures At(m, ChildCtx(up, p, m[p], j), Child(m[p], j), h)
    ensures Entries(m, ChildCtx(up, p, m[p], j), Child(m[p], j), h) == Entries(m, up, p, h + 1)
    ensures Pages(m, ChildCtx(up, p, m[p], j), Child(m[p], j), h) == Pages(m, up, p, h + 1)
  {
    ChildInPlace(m, up, p, h, j);
    ParentWhole(m, ChildCtx(up, p, m[p], j), Child(m[p], j), h);
  }

  function Root(c: Ctx, p: Pgno): Pgno {
    if c.Top? then p else Root(c.up, c.pg)
  }

  function Depth(c: Ctx): nat {
    if c.Top? then 0 else 1 + Depth(c.up)
  }

  /** The whole tree at height t below the root has these entries and pages. */
  ghost predicate Holds(m: Pager, c: Ctx, p: Pgno, h: nat, entries: seq<Payload>, pages: multiset<Pgno>) {
    At(m, c, p, h) && Entries(m, c, p, h) == entries && Pages(m, c, p, h) == pages
  }

  lemma HoldsUp(m: Pager, c: Ctx, p: Pgno, h: nat, entries: seq<Payload>, pages: multiset<Pgno>)
    requires Holds(m, c, p, h, entries, pages) && !c.Top?
    ensures Holds(m, c.up, c.pg, h + 1, entries, pages)
  {
    MoveUp(m, c, p, h);
  }

  /** All the way up: the tree seen from its root. */
  lemma {:induction false} Climb(m: Pager, c: Ctx, p: Pgno, h: nat, t: nat, entries: seq<Payload>, pages: multiset<Pgno>)
    requires Holds(m, c, p, h, entries, pages) && t == h + Depth(c)
    ensures Holds(m, Top, Root(c, p), t, entries, pages)
    decreases c
  {
    if c.Top? {
      assert h == t;
    } else {
      HoldsUp(m, c, p, h, entries, pages);
      Climb(m, c.up, c.pg, h + 1, t, entries, pages);
    }
  }
}

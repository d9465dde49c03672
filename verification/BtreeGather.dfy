/** Siblings laid side by side with their dividers, and pages made from such a row of cells. */
module BtreeGather {
  import opened FileFormat
  import opened BtreeShape

  /** The cells of the pages left of each divider, each page closed by its divider, which takes over the page's right child. */
  function GatherCells(m: Pager, divs: seq<Cell>): seq<Cell> {
    if divs == [] || divs[0].leftChild !in m then []
    else
      var pg := m[divs[0].leftChild];
      pg.apCell + [Cell(pg.rightChild, divs[0].item)] + GatherCells(m, divs[1..])
  }

  function Lefts(cells: seq<Cell>): seq<Pgno> {
    if cells == [] then [] else [cells[0].leftChild] + Lefts(cells[1..])
  }

  function ParentOf(m: Pager, q: Pgno): Pgno {
    if q in m then m[q].pParent else 0
  }

  ghost predicate AnyTree(m: Pager, q: Pgno, h: nat) {
    Tree(m, q, ParentOf(m, q), h)
  }

  /** Every cell's subtree is a tree below some parent. */
  ghost predicate AnyTrees(m: Pager, cells: seq<Cell>, h: nat)
    decreases |cells|
  {
    cells != [] ==> AnyTree(m, cells[0].leftChild, h) && AnyTrees(m, cells[1..], h)
  }

  lemma TreeIsAny(m: Pager, q: Pgno, par: Pgno, h: nat)
    requires Tree(m, q, par, h)
    ensures AnyTree(m, q, h)
  {}

  lemma {:induction false} TreesAreAny(m: Pager, cells: seq<Cell>, par: Pgno, h: nat)
    requires CellsTree(m, cells, par, h)
    ensures AnyTrees(m, cells, h)
    decreases |cells|
  {
    if cells != [] {
      TreeIsAny(m, cells[0].leftChild, par, h);
      TreesAreAny(m, cells[1..], par, h);
    }
  }

  lemma {:induction false} AnyTreesConcat(m: Pager, a: seq<Cell>, b: seq<Cell>, h: nat)
    ensures AnyTrees(m, a + b, h) <==> AnyTrees(m, a, h) && AnyTrees(m, b, h)
    decreases |a|
  {
    if a == [] {
      assert a + b == b;
    } else {
      assert (a + b)[1..] == a[1..] + b;
      AnyTreesConcat(m, a[1..], b, h);
    }
  }

  // ---------------------------------------------------------------- gathering

  /** One sibling and its divider, as a row of cells. */
  function SiblingRow(m: Pager, d: Cell): seq<Cell>
    requires d.leftChild in m
  {
    m[d.leftChild].apCell + [Cell(m[d.leftChild].rightChild, d.item)]
  }

  lemma SiblingOrder(m: Pager, d: Cell, h: nat)
    requires h > 0 && d.leftChild in m
    ensures CellsOrder(m, SiblingRow(m, d), h - 1) == InOrder(m, d.leftChild, h) + [d.item]
  {
    var pg := m[d.leftChild];
    OneCell(m, Cell(pg.rightChild, d.item), 0, h - 1);
    CellsOrderConcat(m, pg.apCell, [Cell(pg.rightChild, d.item)], h - 1);
  }

  lemma SiblingBag(m: Pager, d: Cell, h: nat)
    requires h > 0 && d.leftChild in m
    ensures Bag(m, d.leftChild, h) == multiset{d.leftChild} + CellsBag(m, SiblingRow(m, d), h - 1)
  {
    var pg := m[d.leftChild];
    OneCell(m, Cell(pg.rightChild, d.item), 0, h - 1);
    CellsBagConcat(m, pg.apCell, [Cell(pg.rightChild, d.item)], h - 1);
  }

  lemma SiblingTrees(m: Pager, d: Cell, par: Pgno, h: nat)
    requires h > 0 && Tree(m, d.leftChild, par, h)
    ensures AnyTrees(m, SiblingRow(m, d), h - 1)
  {
    var pg := m[d.leftChild];
    var x := Cell(pg.rightChild, d.item);
    TreesAreAny(m, pg.apCell, d.leftChild, h - 1);
    TreeIsAny(m, pg.rightChild, d.leftChild, h - 1);
    assert [x][1..] == [];
    AnyTreesConcat(m, pg.apCell, [x], h - 1);
  }

  /** Gathering keeps the order of subtrees and entries. */
  lemma {:induction false} GatherOrder(m: Pager, divs: seq<Cell>, par: Pgno, h: nat)
    requires h > 0 && CellsTree(m, divs, par, h)
    ensures CellsOrder(m, GatherCells(m, divs), h - 1) == CellsOrder(m, divs, h)
    decreases |divs|
  {
    if divs != [] {
      SiblingOrder(m, divs[0], h);
      GatherOrder(m, divs[1..], par, h);
      CellsOrderConcat(m, SiblingRow(m, divs[0]), GatherCells(m, divs[1..]), h - 1);
    }
  }

  /** Gathering keeps the pages: the siblings themselves, and those below them. */
  lemma {:induction false} GatherBag(m: Pager, divs: seq<Cell>, par: Pgno, h: nat)
    requires h > 0 && CellsTree(m, divs, par, h)
    ensures CellsBag(m, divs, h) == multiset(Lefts(divs)) + CellsBag(m, GatherCells(m, divs), h - 1)
    decreases |divs|
  {
    if divs != [] {
      GatherBag(m, divs[1..], par, h);
      GatherBagStep(m, divs, h, CellsBag(m, divs[1..], h), multiset(Lefts(divs[1..])),
                    CellsBag(m, GatherCells(m, divs[1..]), h - 1));
    }
  }

  lemma GatherBagStep(m: Pager, divs: seq<Cell>, h: nat, rest: multiset<Pgno>, lefts: multiset<Pgno>, below: multiset<Pgno>)
    requires h > 0 && divs != [] && divs[0].leftChild in m && rest == CellsBag(m, divs[1..], h) == lefts + below
    requires lefts == multiset(Lefts(divs[1..])) && below == CellsBag(m, GatherCells(m, divs[1..]), h - 1)
    ensures CellsBag(m, divs, h) == multiset(Lefts(divs)) + CellsBag(m, GatherCells(m, divs), h - 1)
  {
    var row := SiblingRow(m, divs[0]);
    SiblingBag(m, divs[0], h);
    CellsBagConcat(m, row, GatherCells(m, divs[1..]), h - 1);
    MultisetOfCons(divs[0].leftChild, Lefts(divs[1..]));
    AddToBags(multiset{divs[0].leftChild}, CellsBag(m, row, h - 1), lefts, below, rest, CellsBag(m, divs, h),
                multiset(Lefts(divs)), CellsBag(m, GatherCells(m, divs), h - 1));
  }

  lemma RegroupBags(a: multiset<Pgno>, b: multiset<Pgno>, c: multiset<Pgno>, d: multiset<Pgno>)
    ensures (a + b) + (c + d) == (a + c) + (b + d)
  {}

  lemma AddToBags(a: multiset<Pgno>, b: multiset<Pgno>, c: multiset<Pgno>, d: multiset<Pgno>, rest: multiset<Pgno>,
                  whole: multiset<Pgno>, lefts: multiset<Pgno>, below: multiset<Pgno>)
    requires rest == c + d && whole == (a + b) + rest && lefts == a + c && below == b + d
    ensures whole == lefts + below
  {}

  lemma MultisetOfCons(q: Pgno, s: seq<Pgno>)
    ensures multiset([q] + s) == multiset{q} + multiset(s)
  {}

  lemma {:induction false} GatherTrees(m: Pager, divs: seq<Cell>, par: Pgno, h: nat)
    requires h > 0 && CellsTree(m, divs, par, h)
    ensures AnyTrees(m, GatherCells(m, divs), h - 1)
    decreases |divs|
  {
    if divs != [] {
      SiblingTrees(m, divs[0], par, h);
      GatherTrees(m, divs[1..], par, h);
      AnyTreesConcat(m, SiblingRow(m, divs[0]), GatherCells(m, divs[1..]), h - 1);
    }
  }

  // ---------------------------------------------------------------- adoption

  /** Page q is as before except perhaps for its parent, and the pages below it are unchanged. */
  ghost predicate Renewed(m: Pager, m': Pager, q: Pgno, h: nat) {
    h > 0 ==>
      && q in m && q in m' && m'[q] == m[q].(pParent := m'[q].pParent)
      && SameOn(CellsBag(m, m[q].apCell, h - 1), m, m') && SameOn(Bag(m, m[q].rightChild, h - 1), m, m')
  }

  ghost predicate CellsRenewed(m: Pager, m': Pager, cells: seq<Cell>, h: nat)
    decreases |cells|
  {
    cells != [] ==> Renewed(m, m', cells[0].leftChild, h) && CellsRenewed(m, m', cells[1..], h)
  }

  lemma RenewedTree(m: Pager, m': Pager, q: Pgno, h: nat)
    requires AnyTree(m, q, h) && Renewed(m, m', q, h)
    ensures InOrder(m', q, h) == InOrder(m, q, h) && Bag(m', q, h) == Bag(m, q, h)
    ensures AnyTree(m', q, h)
  {
    if h > 0 {
      Reparented(m, m', q, ParentOf(m, q), ParentOf(m', q), h);
    }
  }

  /** Adopted subtrees keep their order and pages. */
  lemma {:induction false} CellsRenewedTrees(m: Pager, m': Pager, cells: seq<Cell>, h: nat)
    requires AnyTrees(m, cells, h) && CellsRenewed(m, m', cells, h)
    ensures CellsOrder(m', cells, h) == CellsOrder(m, cells, h) && CellsBag(m', cells, h) == CellsBag(m, cells, h)
    ensures AnyTrees(m', cells, h)
    decreases |cells|
  {
    if cells != [] {
      RenewedTree(m, m', cells[0].leftChild, h);
      CellsRenewedTrees(m, m', cells[1..], h);
    }
  }

  /** All subtrees of a row of cells know one parent. */
  ghost predicate Owned(m: Pager, cells: seq<Cell>, par: Pgno, h: nat)
    decreases |cells|
  {
    cells != [] ==> (h > 0 ==> ParentOf(m, cells[0].leftChild) == par) && Owned(m, cells[1..], par, h)
  }

  lemma {:induction false} OwnedTrees(m: Pager, cells: seq<Cell>, par: Pgno, h: nat)
    requires AnyTrees(m, cells, h) && Owned(m, cells, par, h)
    ensures CellsTree(m, cells, par, h)
    decreases |cells|
  {
    if cells != [] {
      OwnedTrees(m, cells[1..], par, h);
    }
  }

  /** Page q is a child of par, and every page below it knows q. */
  ghost predicate NewPage(m: Pager, q: Pgno, par: Pgno, h: nat)
    requires h > 0
  {
    && q != 0 && q in m && m[q].pParent == par
    && Owned(m, m[q].apCell, q, h - 1) && (h > 1 ==> ParentOf(m, m[q].rightChild) == q)
  }

  ghost predicate NewPages(m: Pager, divs: seq<Cell>, par: Pgno, h: nat)
    requires h > 0
    decreases |divs|
  {
    divs != [] ==> NewPage(m, divs[0].leftChild, par, h) && NewPages(m, divs[1..], par, h)
  }

  lemma NewPageTree(m: Pager, q: Pgno, par: Pgno, h: nat)
    requires h > 0 && NewPage(m, q, par, h) && AnyTrees(m, m[q].apCell, h - 1) && AnyTree(m, m[q].rightChild, h - 1)
    ensures Tree(m, q, par, h)
  {
    OwnedTrees(m, m[q].apCell, q, h - 1);
  }

  /** Pages filled from a row of trees are trees. */
  lemma {:induction false} NewPagesTrees(m: Pager, divs: seq<Cell>, par: Pgno, h: nat)
    requires h > 0 && NewPages(m, divs, par, h) && AnyTrees(m, GatherCells(m, divs), h - 1)
    ensures CellsTree(m, divs, par, h)
    decreases |divs|
  {
    if divs != [] {
      var pg := m[divs[0].leftChild];
      var x := Cell(pg.rightChild, divs[0].item);
      AnyTreesConcat(m, pg.apCell + [x], GatherCells(m, divs[1..]), h - 1);
      AnyTreesConcat(m, pg.apCell, [x], h - 1);
      assert [x][0].leftChild == pg.rightChild;
      NewPageTree(m, divs[0].leftChild, par, h);
      NewPagesTrees(m, divs[1..], par, h);
    }
  }
}

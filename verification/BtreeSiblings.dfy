/** What balance keeps: the same row of cells laid out over other pages is the same tree. */
module BtreeSiblings {
  import opened FileFormat
  import opened BtreeShape
  import opened BtreeGather

  /** All cells of the group: those of the siblings with the dividers between them. */
  function Row(m: Pager, divs: seq<Cell>, last: Pgno): seq<Cell> {
    GatherCells(m, divs) + if last in m then m[last].apCell else []
  }

  function Tail(m: Pager, last: Pgno): Pgno {
    if last in m then m[last].rightChild else 0
  }

  /** The pages of the group. */
  function Members(divs: seq<Cell>, last: Pgno): seq<Pgno> {
    Lefts(divs) + [last]
  }

  /** The subtrees below the group, left to right. */
  function Kids(row: seq<Cell>, tail: Pgno): seq<Pgno> {
    Lefts(row) + [tail]
  }

  ghost function KidsBag(m: Pager, row: seq<Cell>, tail: Pgno, h: nat): multiset<Pgno> {
    CellsBag(m, row, h) + Bag(m, tail, h)
  }

  /** A page whose children are trees, though they may still know another parent. */
  ghost predicate Loose(m: Pager, p: Pgno, par: Pgno, h: nat)
    requires h > 0
  {
    && p != 0 && p in m && m[p].pParent == par
    && AnyTrees(m, m[p].apCell, h - 1) && AnyTree(m, m[p].rightChild, h - 1)
  }

  lemma TreeIsLoose(m: Pager, p: Pgno, par: Pgno, h: nat)
    requires h > 0 && Tree(m, p, par, h)
    ensures Loose(m, p, par, h)
  {
    TreesAreAny(m, m[p].apCell, p, h - 1);
    TreeIsAny(m, m[p].rightChild, p, h - 1);
  }

  /** A whole tree, but for the back pointers of the children of page p. */
  ghost predicate LooseAt(m: Pager, c: Ctx, p: Pgno, h: nat)
    requires h > 0
  {
    Loose(m, p, Par(c), h) && CtxTree(m, c, p, h) && Once(CtxBag(m, c, h) + Bag(m, p, h))
  }

  lemma AtIsLoose(m: Pager, c: Ctx, p: Pgno, h: nat)
    requires h > 0 && At(m, c, p, h)
    ensures LooseAt(m, c, p, h)
  {
    TreeIsLoose(m, p, Par(c), h);
  }

  lemma RowOrder(m: Pager, divs: seq<Cell>, last: Pgno, par: Pgno, h: nat)
    requires h > 0 && CellsTree(m, divs, par, h) && Loose(m, last, par, h)
    ensures CellsOrder(m, divs, h) + InOrder(m, last, h)
         == CellsOrder(m, Row(m, divs, last), h - 1) + InOrder(m, Tail(m, last), h - 1)
  {
    GatherOrder(m, divs, par, h);
    CellsOrderConcat(m, GatherCells(m, divs), m[last].apCell, h - 1);
    Associate(CellsOrder(m, divs, h), CellsOrder(m, m[last].apCell, h - 1), InOrder(m, m[last].rightChild, h - 1));
  }

  lemma Associate<T>(a: seq<T>, b: seq<T>, c: seq<T>)
    ensures a + (b + c) == (a + b) + c
  {}

  lemma RowBag(m: Pager, divs: seq<Cell>, last: Pgno, par: Pgno, h: nat)
    requires h > 0 && CellsTree(m, divs, par, h) && Loose(m, last, par, h)
    ensures CellsBag(m, divs, h) + Bag(m, last, h)
         == multiset(Members(divs, last)) + KidsBag(m, Row(m, divs, last), Tail(m, last), h - 1)
  {
    GatherBag(m, divs, par, h);
    CellsBagConcat(m, GatherCells(m, divs), m[last].apCell, h - 1);
    MultisetOfSnoc(Lefts(divs), last);
    LastBag(CellsBag(m, divs, h), Bag(m, last, h), multiset(Members(divs, last)), CellsBag(m, Row(m, divs, last), h - 1),
            multiset(Lefts(divs)), CellsBag(m, GatherCells(m, divs), h - 1), multiset{last},
            CellsBag(m, m[last].apCell, h - 1), Bag(m, m[last].rightChild, h - 1));
  }

  lemma LastBag(x: multiset<Pgno>, y: multiset<Pgno>, members: multiset<Pgno>, row: multiset<Pgno>,
                d: multiset<Pgno>, g: multiset<Pgno>, l: multiset<Pgno>, a: multiset<Pgno>, r: multiset<Pgno>)
    requires x == d + g && y == l + a + r && members == d + l && row == g + a
    ensures x + y == members + (row + r)
  {}

  lemma MultisetOfSnoc(s: seq<Pgno>, q: Pgno)
    ensures multiset(s + [q]) == multiset(s) + multiset{q}
  {}

  lemma RowTrees(m: Pager, divs: seq<Cell>, last: Pgno, par: Pgno, h: nat)
    requires h > 0 && CellsTree(m, divs, par, h) && Loose(m, last, par, h)
    ensures AnyTrees(m, Row(m, divs, last), h - 1) && AnyTree(m, Tail(m, last), h - 1)
  {
    GatherTrees(m, divs, par, h);
    AnyTreesConcat(m, GatherCells(m, divs), m[last].apCell, h - 1);
  }

  // ---------------------------------------------------------------- below the kids

  ghost function Below(m: Pager, q: Pgno, h: nat): multiset<Pgno> {
    if h == 0 || q !in m then multiset{} else CellsBag(m, m[q].apCell, h - 1) + Bag(m, m[q].rightChild, h - 1)
  }

  ghost function CellsBelow(m: Pager, cells: seq<Cell>, h: nat): multiset<Pgno>
    decreases |cells|
  {
    if cells == [] then multiset{} else Below(m, cells[0].leftChild, h) + CellsBelow(m, cells[1..], h)
  }

  lemma TopAndBelow(m: Pager, q: Pgno, h: nat)
    requires h > 0 && AnyTree(m, q, h)
    ensures Bag(m, q, h) == multiset{q} + Below(m, q, h)
  {}

  lemma {:induction false} CellsTopAndBelow(m: Pager, cells: seq<Cell>, h: nat)
    requires h > 0 && AnyTrees(m, cells, h)
    ensures CellsBag(m, cells, h) == multiset(Lefts(cells)) + CellsBelow(m, cells, h)
    decreases |cells|
  {
    if cells != [] {
      TopAndBelow(m, cells[0].leftChild, h);
      CellsTopAndBelow(m, cells[1..], h);
      MultisetOfCons(cells[0].leftChild, Lefts(cells[1..]));
      RegroupBags(multiset{cells[0].leftChild}, Below(m, cells[0].leftChild, h), multiset(Lefts(cells[1..])), CellsBelow(m, cells[1..], h));
    }
  }

  /** Tops and what is below them. */
  lemma KidsTopAndBelow(m: Pager, row: seq<Cell>, tail: Pgno, h: nat)
    requires h > 0 && AnyTrees(m, row, h) && AnyTree(m, tail, h)
    ensures KidsBag(m, row, tail, h) == multiset(Kids(row, tail)) + (CellsBelow(m, row, h) + Below(m, tail, h))
  {
    CellsTopAndBelow(m, row, h);
    TopAndBelow(m, tail, h);
    MultisetOfSnoc(Lefts(row), tail);
    RegroupBags(multiset(Lefts(row)), CellsBelow(m, row, h), multiset{tail}, Below(m, tail, h));
  }

  lemma {:induction false} NoKids(m: Pager, row: seq<Cell>)
    requires AnyTrees(m, row, 0)
    ensures forall i | 0 <= i < |Lefts(row)| :: Lefts(row)[i] == 0
    ensures CellsBag(m, row, 0) == multiset{}
    decreases |row|
  {
    if row != [] { NoKids(m, row[1..]); }
  }

  /** Page q is the same but for its parent. */
  ghost predicate OnlyParent(m: Pager, m': Pager, q: Pgno) {
    q in m && q in m' && m'[q] == m[q].(pParent := m'[q].pParent)
  }

  ghost predicate OnlyParents(m: Pager, m': Pager, kids: seq<Pgno>) {
    forall i | 0 <= i < |kids| && kids[i] != 0 :: OnlyParent(m, m', kids[i])
  }

  lemma {:induction false} CellsRenewedFrom(m: Pager, m': Pager, row: seq<Cell>, h: nat)
    requires AnyTrees(m, row, h) && OnlyParents(m, m', Lefts(row)) && SameOn(CellsBelow(m, row, h), m, m')
    ensures CellsRenewed(m, m', row, h)
    decreases |row|
  {
    if row != [] {
      assert Lefts(row)[0] == row[0].leftChild;
      assert Lefts(row)[1..] == Lefts(row[1..]);
      SameOnParts(Below(m, row[0].leftChild, h), CellsBelow(m, row[1..], h), multiset{}, m, m');
      RenewedFrom(m, m', row[0].leftChild, h);
      CellsRenewedFrom(m, m', row[1..], h);
    }
  }

  lemma RenewedFrom(m: Pager, m': Pager, q: Pgno, h: nat)
    requires AnyTree(m, q, h) && (q != 0 ==> OnlyParent(m, m', q)) && SameOn(Below(m, q, h), m, m')
    ensures Renewed(m, m', q, h)
  {
    if h > 0 {
      SameOnParts(CellsBag(m, m[q].apCell, h - 1), Bag(m, m[q].rightChild, h - 1), multiset{}, m, m');
    }
  }

  /** Adoption keeps the order, the pages and the shape of all subtrees of the group. */
  lemma KidsKept(m: Pager, m': Pager, row: seq<Cell>, tail: Pgno, h: nat)
    requires AnyTrees(m, row, h) && AnyTree(m, tail, h) && OnlyParents(m, m', Kids(row, tail))
    requires SameOn(CellsBelow(m, row, h), m, m') && SameOn(Below(m, tail, h), m, m')
    ensures AnyTrees(m', row, h) && AnyTree(m', tail, h) && KidsBag(m', row, tail, h) == KidsBag(m, row, tail, h)
    ensures CellsOrder(m', row, h) + InOrder(m', tail, h) == CellsOrder(m, row, h) + InOrder(m, tail, h)
  {
    KidsApart(m, m', row, tail);
    CellsRenewedFrom(m, m', row, h);
    CellsRenewedTrees(m, m', row, h);
    RenewedFrom(m, m', tail, h);
    RenewedTree(m, m', tail, h);
  }

  lemma KidsApart(m: Pager, m': Pager, row: seq<Cell>, tail: Pgno)
    requires OnlyParents(m, m', Kids(row, tail))
    ensures OnlyParents(m, m', Lefts(row)) && (tail != 0 ==> OnlyParent(m, m', tail))
  {
    var kids := Kids(row, tail);
    assert kids[|Lefts(row)|] == tail;
    forall i | 0 <= i < |Lefts(row)| && Lefts(row)[i] != 0 ensures OnlyParent(m, m', Lefts(row)[i]) {
      assert kids[i] == Lefts(row)[i];
    }
  }

  // ---------------------------------------------------------------- the group in its parent

  function WithLeft(c: Ctx, left: seq<Cell>): Ctx
    requires !c.Top?
  {
    if c.InCell? then InCell(c.up, c.pg, left, c.item, c.rest, c.right) else AtRight(c.up, c.pg, left)
  }

  /** Everything but the siblings themselves and what is below them. */
  ghost function Around(m: Pager, c: Ctx, pre: seq<Cell>, h: nat): multiset<Pgno>
    requires !c.Top?
  {
    CellsBag(m, pre, h) + RestBag(m, c, h) + CtxBag(m, c.up, h + 1)
  }

  lemma WholeBag(m: Pager, c: Ctx, pre: seq<Cell>, divs: seq<Cell>, last: Pgno, h: nat)
    requires h > 0 && !c.Top? && CellsTree(m, divs, c.pg, h) && Loose(m, last, c.pg, h)
    ensures CtxBag(m, WithLeft(c, pre + divs), h) + Bag(m, last, h)
         == multiset{c.pg} + Around(m, c, pre, h) + multiset(Members(divs, last))
          + KidsBag(m, Row(m, divs, last), Tail(m, last), h - 1)
  {
    var c1 := WithLeft(c, pre + divs);
    assert RestBag(m, c1, h) == RestBag(m, c, h);
    CellsBagConcat(m, pre, divs, h);
    RowBag(m, divs, last, c.pg, h);
    SixBags(multiset{c.pg}, CellsBag(m, pre, h), CellsBag(m, divs, h), RestBag(m, c, h), CtxBag(m, c.up, h + 1), Bag(m, last, h));
    Fold(multiset{c.pg} + Around(m, c, pre, h), CellsBag(m, divs, h) + Bag(m, last, h), multiset(Members(divs, last)),
         KidsBag(m, Row(m, divs, last), Tail(m, last), h - 1));
  }

  lemma SixBags(p: multiset<Pgno>, a: multiset<Pgno>, b: multiset<Pgno>, r: multiset<Pgno>, u: multiset<Pgno>, l: multiset<Pgno>)
    ensures (p + (a + b) + r + u) + l == p + (a + r + u) + (b + l)
  {}

  lemma Fold(a: multiset<Pgno>, x: multiset<Pgno>, b: multiset<Pgno>, c: multiset<Pgno>)
    requires x == b + c
    ensures a + x == a + b + c
  {}

  lemma SiblingsTrees(m: Pager, c: Ctx, pre: seq<Cell>, divs: seq<Cell>, last: Pgno, h: nat)
    requires h > 0 && !c.Top? && CtxTree(m, WithLeft(c, pre + divs), last, h)
    ensures CellsTree(m, pre, c.pg, h) && CellsTree(m, divs, c.pg, h) && CtxTree(m, c.up, c.pg, h + 1)
    ensures c.InCell? ==> CellsTree(m, c.rest, c.pg, h) && Tree(m, c.right, c.pg, h)
  {
    CellsTreeConcat(m, pre, divs, c.pg, h);
  }

  /** The pages around the group are as they were. */
  lemma AroundFrame(m: Pager, m': Pager, c: Ctx, pre: seq<Cell>, divs: seq<Cell>, last: Pgno, h: nat)
    requires h > 0 && !c.Top? && CtxTree(m, WithLeft(c, pre + divs), last, h) && SameOn(Around(m, c, pre, h), m, m')
    ensures CellsTree(m', pre, c.pg, h) && CtxTree(m', c.up, c.pg, h + 1)
    ensures c.InCell? ==> CellsTree(m', c.rest, c.pg, h) && Tree(m', c.right, c.pg, h)
    ensures Around(m', c, pre, h) == Around(m, c, pre, h)
    ensures CellsOrder(m', pre, h) == CellsOrder(m, pre, h) && RestOrder(m', c, h) == RestOrder(m, c, h)
    ensures Before(m', c.up, h + 1) == Before(m, c.up, h + 1) && After(m', c.up, h + 1) == After(m, c.up, h + 1)
  {
    SiblingsTrees(m, c, pre, divs, last, h);
    SameOnParts(CellsBag(m, pre, h), RestBag(m, c, h), CtxBag(m, c.up, h + 1), m, m');
    CellsFrame(m, m', pre, c.pg, h);
    RestFrame(m, m', c, h);
    CtxFrame(m, m', c.up, c.pg, h + 1);
  }

  /** The entries around and in the group. */
  lemma GroupEntries(m: Pager, c: Ctx, pre: seq<Cell>, divs: seq<Cell>, last: Pgno, h: nat)
    requires h > 0 && !c.Top? && CellsTree(m, divs, c.pg, h) && Loose(m, last, c.pg, h)
    ensures Entries(m, WithLeft(c, pre + divs), last, h)
         == Before(m, c.up, h + 1) + CellsOrder(m, pre, h)
          + (CellsOrder(m, Row(m, divs, last), h - 1) + InOrder(m, Tail(m, last), h - 1))
          + RestOrder(m, c, h) + After(m, c.up, h + 1)
  {
    var c1 := WithLeft(c, pre + divs);
    assert RestOrder(m, c1, h) == RestOrder(m, c, h);
    CellsOrderConcat(m, pre, divs, h);
    RowOrder(m, divs, last, c.pg, h);
    SixLists(Before(m, c.up, h + 1), CellsOrder(m, pre, h), CellsOrder(m, divs, h), InOrder(m, last, h), RestOrder(m, c, h), After(m, c.up, h + 1));
  }

  lemma SixLists<T>(b: seq<T>, p: seq<T>, d: seq<T>, l: seq<T>, r: seq<T>, a: seq<T>)
    ensures (b + (p + d)) + l + (r + a) == b + p + (d + l) + r + a
  {}
}

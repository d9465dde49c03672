/** A group of siblings laid out again: the tree around it, its entries and its pages. */
module BtreeResettled {
  import opened FileFormat
  import opened BtreeShape
  import opened BtreeGather
  import opened BtreeSiblings

  /** Pages that are neither the parent, nor siblings old or new, nor their children, are as before. */
  ghost predicate Effect(m: Pager, m': Pager, par: Pgno, olds: seq<Pgno>, news: seq<Pgno>, kids: seq<Pgno>) {
    forall q | q in m && Away(q, par, olds, news, kids) :: q in m' && m'[q] == m[q]
  }

  predicate Away(q: Pgno, par: Pgno, olds: seq<Pgno>, news: seq<Pgno>, kids: seq<Pgno>) {
    q != par && q !in olds && q !in news && (q == 0 || q !in kids)
  }

  /** New siblings are old ones used again, or pages that were in no use. */
  ghost predicate Supplied(m: Pager, olds: seq<Pgno>, news: seq<Pgno>) {
    Once(multiset(news)) && forall q | q in news :: q in olds || q !in m
  }

  /** The group at divs and last becomes divs' and last', over the same row of cells. */
  ghost predicate Resettled(m: Pager, m': Pager, c: Ctx, pre: seq<Cell>, divs: seq<Cell>, last: Pgno,
                            divs': seq<Cell>, last': Pgno, h: nat)
    requires h > 0 && !c.Top?
  {
    && Row(m', divs', last') == Row(m, divs, last) && Tail(m', last') == Tail(m, last)
    && c.pg in m' && m'[c.pg] == ParentPage(WithLeft(c, pre + divs'), last')
    && NewPages(m', divs', c.pg, h) && NewPage(m', last', c.pg, h)
    && OnlyParents(m, m', Kids(Row(m, divs, last), Tail(m, last)))
    && Supplied(m, Members(divs, last), Members(divs', last'))
    && Effect(m, m', c.pg, Members(divs, last), Members(divs', last'), Kids(Row(m, divs, last), Tail(m, last)))
  }

  // ---------------------------------------------------------------- pages of a tree exist

  ghost predicate Known(b: multiset<Pgno>, m: Pager) {
    forall q | q in b :: q in m
  }

  lemma {:induction false} BagKnown(m: Pager, p: Pgno, h: nat)
    ensures Known(Bag(m, p, h), m)
    decreases h, 0
  {
    if h > 0 && p in m {
      CellsBagKnown(m, m[p].apCell, h - 1);
      BagKnown(m, m[p].rightChild, h - 1);
    }
  }

  lemma {:induction false} CellsBagKnown(m: Pager, cells: seq<Cell>, h: nat)
    ensures Known(CellsBag(m, cells, h), m)
    decreases h, |cells|
  {
    if cells != [] {
      BagKnown(m, cells[0].leftChild, h);
      CellsBagKnown(m, cells[1..], h);
    }
  }

  lemma {:induction false} CtxBagKnown(m: Pager, c: Ctx, p: Pgno, h: nat)
    requires CtxTree(m, c, p, h)
    ensures Known(CtxBag(m, c, h), m)
    decreases c
  {
    if !c.Top? {
      CellsBagKnown(m, c.left, h);
      RestBagKnown(m, c, h);
      CtxBagKnown(m, c.up, c.pg, h + 1);
    }
  }

  lemma RestBagKnown(m: Pager, c: Ctx, h: nat)
    ensures Known(RestBag(m, c, h), m)
  {
    if c.InCell? {
      CellsBagKnown(m, c.rest, h);
      BagKnown(m, c.right, h);
    }
  }

  lemma AroundKnown(m: Pager, c: Ctx, pre: seq<Cell>, h: nat)
    requires !c.Top? && CtxTree(m, c.up, c.pg, h + 1)
    ensures Known(Around(m, c, pre, h), m)
  {
    CellsBagKnown(m, pre, h);
    RestBagKnown(m, c, h);
    CtxBagKnown(m, c.up, c.pg, h + 1);
  }

  lemma {:induction false} CellsBelowKnown(m: Pager, cells: seq<Cell>, h: nat)
    ensures Known(CellsBelow(m, cells, h), m)
    decreases |cells|
  {
    if cells != [] {
      BelowKnown(m, cells[0].leftChild, h);
      CellsBelowKnown(m, cells[1..], h);
    }
  }

  lemma BelowKnown(m: Pager, q: Pgno, h: nat)
    ensures Known(Below(m, q, h), m)
  {
    if h > 0 && q in m {
      CellsBagKnown(m, m[q].apCell, h - 1);
      BagKnown(m, m[q].rightChild, h - 1);
    }
  }

  // ---------------------------------------------------------------- what stays away from what

  lemma SameAway(b: multiset<Pgno>, m: Pager, m': Pager, par: Pgno, olds: seq<Pgno>, news: seq<Pgno>, kids: seq<Pgno>)
    requires Known(b, m) && Effect(m, m', par, olds, news, kids) && Supplied(m, olds, news)
    requires forall q | q in b :: q != par && q !in olds && (q == 0 || q !in kids)
    ensures SameOn(b, m, m')
  {
    forall q | q in b ensures q in m && q in m' && m'[q] == m[q] {
      assert Away(q, par, olds, news, kids);
    }
  }

  /** In a bag without repetitions the parts are apart. */
  lemma PartsApart(p: Pgno, around: multiset<Pgno>, olds: seq<Pgno>, kids: multiset<Pgno>, q: Pgno)
    requires Once(multiset{p} + around + multiset(olds) + kids)
    ensures q in around ==> q != p && q !in olds && q !in kids
    ensures q in kids ==> q != p && q !in olds && q !in around && kids[q] == 1
    ensures q in olds ==> multiset(olds)[q] == 1
  {
    var b := multiset{p} + around + multiset(olds) + kids;
    assert b[q] == multiset{p}[q] + around[q] + multiset(olds)[q] + kids[q];
    assert q in b ==> b[q] == 1;
    assert q in olds ==> q in multiset(olds);
  }

  /** All kids are null in a group of leaves, and otherwise counted in the bag. */
  lemma KidCounted(m: Pager, row: seq<Cell>, tail: Pgno, h: nat, q: Pgno)
    requires AnyTrees(m, row, h) && AnyTree(m, tail, h) && q != 0 && q in Kids(row, tail)
    ensures h > 0 && q in KidsBag(m, row, tail, h)
  {
    if h == 0 {
      NoKids(m, row);
      assert false;
    } else {
      KidsTopAndBelow(m, row, tail, h);
      assert q in multiset(Kids(row, tail));
    }
  }

  lemma AroundSame(m: Pager, m': Pager, c: Ctx, pre: seq<Cell>, olds: seq<Pgno>, news: seq<Pgno>,
                   row: seq<Cell>, tail: Pgno, h: nat)
    requires h > 0 && !c.Top? && CtxTree(m, c.up, c.pg, h + 1)
    requires AnyTrees(m, row, h - 1) && AnyTree(m, tail, h - 1)
    requires Once(multiset{c.pg} + Around(m, c, pre, h) + multiset(olds) + KidsBag(m, row, tail, h - 1))
    requires Effect(m, m', c.pg, olds, news, Kids(row, tail)) && Supplied(m, olds, news)
    ensures SameOn(Around(m, c, pre, h), m, m')
  {
    var b := Around(m, c, pre, h);
    AroundKnown(m, c, pre, h);
    forall q | q in b ensures q != c.pg && q !in olds && (q == 0 || q !in Kids(row, tail)) {
      PartsApart(c.pg, b, olds, KidsBag(m, row, tail, h - 1), q);
      if q != 0 && q in Kids(row, tail) {
        KidCounted(m, row, tail, h - 1, q);
      }
    }
    SameAway(b, m, m', c.pg, olds, news, Kids(row, tail));
  }

  lemma {:induction false} NothingBelow(m: Pager, row: seq<Cell>)
    ensures CellsBelow(m, row, 0) == multiset{}
    decreases |row|
  {
    if row != [] { NothingBelow(m, row[1..]); }
  }

  /** A page below the kids is none of them. */
  lemma BelowApart(m: Pager, row: seq<Cell>, tail: Pgno, h: nat, q: Pgno)
    requires AnyTrees(m, row, h) && AnyTree(m, tail, h) && q in CellsBelow(m, row, h) + Below(m, tail, h)
    ensures q in KidsBag(m, row, tail, h)
    ensures KidsBag(m, row, tail, h)[q] == 1 ==> q !in Kids(row, tail)
  {
    if h == 0 {
      NothingBelow(m, row);
      assert false;
    } else {
      KidsTopAndBelow(m, row, tail, h);
      assert q in Kids(row, tail) ==> q in multiset(Kids(row, tail));
    }
  }

  lemma BelowSame(m: Pager, m': Pager, p: Pgno, around: multiset<Pgno>, olds: seq<Pgno>, news: seq<Pgno>,
                  row: seq<Cell>, tail: Pgno, h: nat)
    requires AnyTrees(m, row, h) && AnyTree(m, tail, h)
    requires Once(multiset{p} + around + multiset(olds) + KidsBag(m, row, tail, h))
    requires Effect(m, m', p, olds, news, Kids(row, tail)) && Supplied(m, olds, news)
    ensures SameOn(CellsBelow(m, row, h) + Below(m, tail, h), m, m')
  {
    var b := CellsBelow(m, row, h) + Below(m, tail, h);
    CellsBelowKnown(m, row, h);
    BelowKnown(m, tail, h);
    forall q | q in b ensures q != p && q !in olds && (q == 0 || q !in Kids(row, tail)) {
      BelowApart(m, row, tail, h, q);
      PartsApart(p, around, olds, KidsBag(m, row, tail, h), q);
    }
    SameAway(b, m, m', p, olds, news, Kids(row, tail));
  }

  // ---------------------------------------------------------------- the theorem

  /** The kids of the group are the same trees after it was laid out again. */
  lemma ResettledKids(m: Pager, m': Pager, p: Pgno, around: multiset<Pgno>, olds: seq<Pgno>, news: seq<Pgno>,
                      row: seq<Cell>, tail: Pgno, h: nat)
    requires AnyTrees(m, row, h) && AnyTree(m, tail, h)
    requires Once(multiset{p} + around + multiset(olds) + KidsBag(m, row, tail, h))
    requires Effect(m, m', p, olds, news, Kids(row, tail)) && Supplied(m, olds, news)
    requires OnlyParents(m, m', Kids(row, tail))
    ensures AnyTrees(m', row, h) && AnyTree(m', tail, h) && KidsBag(m', row, tail, h) == KidsBag(m, row, tail, h)
    ensures CellsOrder(m', row, h) + InOrder(m', tail, h) == CellsOrder(m, row, h) + InOrder(m, tail, h)
  {
    BelowSame(m, m', p, around, olds, news, row, tail, h);
    SameOnParts(CellsBelow(m, row, h), Below(m, tail, h), multiset{}, m, m');
    KidsKept(m, m', row, tail, h);
  }

  /** The new siblings are trees. */
  lemma ResettledTrees(m': Pager, par: Pgno, divs': seq<Cell>, last': Pgno, h: nat)
    requires h > 0 && NewPages(m', divs', par, h) && NewPage(m', last', par, h)
    requires AnyTrees(m', Row(m', divs', last'), h - 1) && AnyTree(m', Tail(m', last'), h - 1)
    ensures CellsTree(m', divs', par, h) && Tree(m', last', par, h)
  {
    AnyTreesConcat(m', GatherCells(m', divs'), m'[last'].apCell, h - 1);
    NewPagesTrees(m', divs', par, h);
    NewPageTree(m', last', par, h);
  }

  /** What the group and its surroundings are before: the parts, and that no page is used twice. */
  lemma GroupParts(m: Pager, c: Ctx, pre: seq<Cell>, divs: seq<Cell>, last: Pgno, h: nat)
    requires h > 0 && !c.Top? && LooseAt(m, WithLeft(c, pre + divs), last, h)
    ensures CellsTree(m, divs, c.pg, h) && CtxTree(m, c.up, c.pg, h + 1)
    ensures AnyTrees(m, Row(m, divs, last), h - 1) && AnyTree(m, Tail(m, last), h - 1)
    ensures Once(multiset{c.pg} + Around(m, c, pre, h) + multiset(Members(divs, last))
               + KidsBag(m, Row(m, divs, last), Tail(m, last), h - 1))
  {
    SiblingsTrees(m, c, pre, divs, last, h);
    RowTrees(m, divs, last, c.pg, h);
    WholeBag(m, c, pre, divs, last, h);
  }

  /** What stays: the kids as trees, and the pages around the group. */
  lemma ResettledFacts(m: Pager, m': Pager, c: Ctx, pre: seq<Cell>, divs: seq<Cell>, last: Pgno,
                       divs': seq<Cell>, last': Pgno, h: nat)
    requires h > 0 && !c.Top? && LooseAt(m, WithLeft(c, pre + divs), last, h)
    requires Resettled(m, m', c, pre, divs, last, divs', last', h)
    ensures var row, tail := Row(m, divs, last), Tail(m, last);
      && AnyTrees(m', row, h - 1) && AnyTree(m', tail, h - 1)
      && KidsBag(m', row, tail, h - 1) == KidsBag(m, row, tail, h - 1)
      && CellsOrder(m', row, h - 1) + InOrder(m', tail, h - 1) == CellsOrder(m, row, h - 1) + InOrder(m, tail, h - 1)
    ensures SameOn(Around(m, c, pre, h), m, m')
  {
    var row, tail := Row(m, divs, last), Tail(m, last);
    var olds, news := Members(divs, last), Members(divs', last');
    GroupParts(m, c, pre, divs, last, h);
    FactsFrom(m, m', c, pre, olds, news, row, tail, h);
  }

  lemma FactsFrom(m: Pager, m': Pager, c: Ctx, pre: seq<Cell>, olds: seq<Pgno>, news: seq<Pgno>,
                  row: seq<Cell>, tail: Pgno, h: nat)
    requires h > 0 && !c.Top? && CtxTree(m, c.up, c.pg, h + 1)
    requires AnyTrees(m, row, h - 1) && AnyTree(m, tail, h - 1)
    requires Once(multiset{c.pg} + Around(m, c, pre, h) + multiset(olds) + KidsBag(m, row, tail, h - 1))
    requires Effect(m, m', c.pg, olds, news, Kids(row, tail)) && Supplied(m, olds, news)
    requires OnlyParents(m, m', Kids(row, tail))
    ensures AnyTrees(m', row, h - 1) && AnyTree(m', tail, h - 1)
    ensures KidsBag(m', row, tail, h - 1) == KidsBag(m, row, tail, h - 1)
    ensures CellsOrder(m', row, h - 1) + InOrder(m', tail, h - 1) == CellsOrder(m, row, h - 1) + InOrder(m, tail, h - 1)
    ensures SameOn(Around(m, c, pre, h), m, m')
  {
    ResettledKids(m, m', c.pg, Around(m, c, pre, h), olds, news, row, tail, h - 1);
    AroundSame(m, m', c, pre, olds, news, row, tail, h);
  }

  /** The tree after: every part in place. */
  lemma ResettledShape(m: Pager, m': Pager, c: Ctx, pre: seq<Cell>, divs: seq<Cell>, last: Pgno,
                       divs': seq<Cell>, last': Pgno, h: nat)
    requires h > 0 && !c.Top? && LooseAt(m, WithLeft(c, pre + divs), last, h)
    requires Resettled(m, m', c, pre, divs, last, divs', last', h)
    ensures CellsTree(m', divs', c.pg, h) && Tree(m', last', c.pg, h)
    ensures CtxTree(m', WithLeft(c, pre + divs'), last', h)
  {
    ResettledFacts(m, m', c, pre, divs, last, divs', last', h);
    ResettledTrees(m', c.pg, divs', last', h);
    AroundFrame(m, m', c, pre, divs, last, h);
    ResettledCtx(m', c, pre, divs', last', h);
  }

  lemma ResettledCtx(m': Pager, c: Ctx, pre: seq<Cell>, divs': seq<Cell>, last': Pgno, h: nat)
    requires !c.Top? && c.pg != 0 && c.pg in m' && m'[c.pg] == ParentPage(WithLeft(c, pre + divs'), last')
    requires CellsTree(m', pre, c.pg, h) && CellsTree(m', divs', c.pg, h) && CtxTree(m', c.up, c.pg, h + 1)
    requires c.InCell? ==> CellsTree(m', c.rest, c.pg, h) && Tree(m', c.right, c.pg, h)
    ensures CtxTree(m', WithLeft(c, pre + divs'), last', h)
  {
    CellsTreeConcat(m', pre, divs', c.pg, h);
  }

  /** Its entries, unchanged. */
  lemma ResettledEntries(m: Pager, m': Pager, c: Ctx, pre: seq<Cell>, divs: seq<Cell>, last: Pgno,
                         divs': seq<Cell>, last': Pgno, h: nat)
    requires h > 0 && !c.Top? && LooseAt(m, WithLeft(c, pre + divs), last, h)
    requires Resettled(m, m', c, pre, divs, last, divs', last', h)
    requires CellsTree(m', divs', c.pg, h) && Loose(m', last', c.pg, h)
    ensures Entries(m', WithLeft(c, pre + divs'), last', h) == Entries(m, WithLeft(c, pre + divs), last, h)
  {
    ResettledFacts(m, m', c, pre, divs, last, divs', last', h);
    AroundFrame(m, m', c, pre, divs, last, h);
    SiblingsTrees(m, c, pre, divs, last, h);
    GroupEntries(m, c, pre, divs, last, h);
    GroupEntries(m', c, pre, divs', last', h);
  }

  /** All pages but the siblings. */
  ghost function Others(m: Pager, c: Ctx, pre: seq<Cell>, divs: seq<Cell>, last: Pgno, h: nat): multiset<Pgno>
    requires h > 0 && !c.Top?
  {
    multiset{c.pg} + Around(m, c, pre, h) + KidsBag(m, Row(m, divs, last), Tail(m, last), h - 1)
  }

  lemma WholeIsOthers(m: Pager, c: Ctx, pre: seq<Cell>, divs: seq<Cell>, last: Pgno, h: nat)
    requires h > 0 && !c.Top? && CellsTree(m, divs, c.pg, h) && Loose(m, last, c.pg, h)
    ensures CtxBag(m, WithLeft(c, pre + divs), h) + Bag(m, last, h)
         == Others(m, c, pre, divs, last, h) + multiset(Members(divs, last))
  {
    WholeBag(m, c, pre, divs, last, h);
    Swap(multiset{c.pg} + Around(m, c, pre, h), multiset(Members(divs, last)), KidsBag(m, Row(m, divs, last), Tail(m, last), h - 1));
  }

  lemma Swap(a: multiset<Pgno>, b: multiset<Pgno>, c: multiset<Pgno>)
    ensures a + b + c == a + c + b
  {}

  lemma OthersKept(m: Pager, m': Pager, c: Ctx, pre: seq<Cell>, divs: seq<Cell>, last: Pgno,
                   divs': seq<Cell>, last': Pgno, h: nat)
    requires h > 0 && !c.Top? && LooseAt(m, WithLeft(c, pre + divs), last, h)
    requires Resettled(m, m', c, pre, divs, last, divs', last', h)
    ensures Others(m', c, pre, divs', last', h) == Others(m, c, pre, divs, last, h)
  {
    ResettledFacts(m, m', c, pre, divs, last, divs', last', h);
    AroundFrame(m, m', c, pre, divs, last, h);
  }

  lemma OthersKnown(m: Pager, c: Ctx, pre: seq<Cell>, divs: seq<Cell>, last: Pgno, h: nat)
    requires h > 0 && !c.Top? && CtxTree(m, WithLeft(c, pre + divs), last, h)
    ensures Known(Others(m, c, pre, divs, last, h), m)
  {
    SiblingsTrees(m, c, pre, divs, last, h);
    AroundKnown(m, c, pre, h);
    KidsKnown(m, Row(m, divs, last), Tail(m, last), h - 1);
    KnownSum(multiset{c.pg}, Around(m, c, pre, h), KidsBag(m, Row(m, divs, last), Tail(m, last), h - 1), m);
  }

  lemma KidsKnown(m: Pager, row: seq<Cell>, tail: Pgno, h: nat)
    ensures Known(KidsBag(m, row, tail, h), m)
  {
    CellsBagKnown(m, row, h);
    BagKnown(m, tail, h);
  }

  lemma KnownSum(a: multiset<Pgno>, b: multiset<Pgno>, c: multiset<Pgno>, m: Pager)
    requires Known(a, m) && Known(b, m) && Known(c, m)
    ensures Known(a + b + c, m)
  {}

  lemma StillOnce(others: multiset<Pgno>, olds: seq<Pgno>, news: seq<Pgno>, m: Pager)
    requires Once(others + multiset(olds)) && Known(others, m) && Supplied(m, olds, news)
    ensures Once(others + multiset(news))
  {
    forall q | q in others + multiset(news) ensures (others + multiset(news))[q] == 1 {
      var b := others + multiset(olds);
      assert b[q] == others[q] + multiset(olds)[q];
      assert q in b ==> b[q] == 1;
      assert q in olds ==> q in multiset(olds);
      assert q in multiset(news) ==> q in news && multiset(news)[q] == 1;
    }
  }

  /** Laying a group of siblings out again keeps the tree, its height and its entries; only siblings come and go. */
  lemma ResettledAt(m: Pager, m': Pager, c: Ctx, pre: seq<Cell>, divs: seq<Cell>, last: Pgno,
                    divs': seq<Cell>, last': Pgno, h: nat)
    requires h > 0 && !c.Top? && LooseAt(m, WithLeft(c, pre + divs), last, h)
    requires Resettled(m, m', c, pre, divs, last, divs', last', h)
    ensures At(m', WithLeft(c, pre + divs'), last', h)
    ensures Entries(m', WithLeft(c, pre + divs'), last', h) == Entries(m, WithLeft(c, pre + divs), last, h)
    ensures var o := Others(m, c, pre, divs, last, h);
      && CtxBag(m, WithLeft(c, pre + divs), h) + Bag(m, last, h) == o + multiset(Members(divs, last))
      && CtxBag(m', WithLeft(c, pre + divs'), h) + Bag(m', last', h) == o + multiset(Members(divs', last'))
      && Known(o, m)
  {
    ResettledShape(m, m', c, pre, divs, last, divs', last', h);
    TreeIsLoose(m', last', c.pg, h);
    ResettledEntries(m, m', c, pre, divs, last, divs', last', h);
    ResettledBags(m, m', c, pre, divs, last, divs', last', h);
  }

  lemma ResettledBags(m: Pager, m': Pager, c: Ctx, pre: seq<Cell>, divs: seq<Cell>, last: Pgno,
                      divs': seq<Cell>, last': Pgno, h: nat)
    requires h > 0 && !c.Top? && LooseAt(m, WithLeft(c, pre + divs), last, h)
    requires Resettled(m, m', c, pre, divs, last, divs', last', h)
    requires CellsTree(m', divs', c.pg, h) && Loose(m', last', c.pg, h)
    ensures var o := Others(m, c, pre, divs, last, h);
      && CtxBag(m, WithLeft(c, pre + divs), h) + Bag(m, last, h) == o + multiset(Members(divs, last))
      && CtxBag(m', WithLeft(c, pre + divs'), h) + Bag(m', last', h) == o + multiset(Members(divs', last'))
      && Known(o, m)
    ensures Once(CtxBag(m', WithLeft(c, pre + divs'), h) + Bag(m', last', h))
  {
    OthersKept(m, m', c, pre, divs, last, divs', last', h);
    SiblingsTrees(m, c, pre, divs, last, h);
    OthersKnown(m, c, pre, divs, last, h);
    WholeIsOthers(m, c, pre, divs, last, h);
    WholeIsOthers(m', c, pre, divs', last', h);
    StillOnce(Others(m, c, pre, divs, last, h), Members(divs, last), Members(divs', last'), m);
  }
}

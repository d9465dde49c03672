/** From pages just filled to a settled group: after the adoptions the group is laid out again. */
module BtreeSettle {
  import opened FileFormat
  import opened BtreeShape
  import opened BtreeGather
  import opened BtreeSiblings
  import opened BtreeResettled
  import opened BtreeLayout
  import opened BtreeAdopt
  import opened BalanceSplit

  /** The pages right after the cells were dealt out: new siblings and the parent are written, the rest untouched. */
  ghost predicate Dealt(m: Pager, m1: Pager, l: Layout, c: Ctx, olds: seq<Pgno>)
    requires !c.Top?
  {
    && Ok(l) && l.par == c.pg
    && (forall i | 0 <= i < |l.cnt| :: LaidAt(m1, l, i))
    && c.pg in m1 && m1[c.pg] == NewParent(l, c)
    && (forall q :: Kept(m, m1, q, c.pg, olds, l.news))
  }

  ghost predicate Kept(m: Pager, m1: Pager, q: Pgno, par: Pgno, olds: seq<Pgno>, news: seq<Pgno>) {
    q in m && q != par && q !in olds && q !in news ==> q in m1 && m1[q] == m[q]
  }

  function LastOf(l: Layout): Pgno
    requires |l.news| > 0
  {
    l.news[|l.news| - 1]
  }

  /** The parent page over the new siblings. */
  ghost function NewParent(l: Layout, c: Ctx): MemPage
    requires Ok(l) && !c.Top?
  {
    ParentPage(WithLeft(c, l.pre + Dividers(l, |l.cnt| - 1)), LastOf(l))
  }

  /** The children of the parent that do not belong to the group. */
  function Sides(c: Ctx, pre: seq<Cell>): seq<Pgno> {
    Lefts(pre) + if c.InCell? then Lefts(c.rest) + [c.right] else []
  }

  lemma ParentsChildren(l: Layout, c: Ctx, q: Pgno)
    requires Ok(l) && !c.Top?
    ensures q in Children(NewParent(l, c)) <==> q in Sides(c, l.pre) || q in l.news
  {
    var n := |l.cnt| - 1;
    var divs := Dividers(l, n);
    DividersLefts(l, n);
    LeftsConcat(l.pre, divs);
    assert l.news == l.news[..n] + [LastOf(l)];
    if c.InCell? {
      LeftsConcat(l.pre + divs + [Cell(LastOf(l), c.item)], c.rest);
      LeftsConcat(l.pre + divs, [Cell(LastOf(l), c.item)]);
      assert Lefts([Cell(LastOf(l), c.item)]) == [LastOf(l)];
    }
  }

  // ---------------------------------------------------------------- the neighbours

  /** The subtrees of a row of cells are pages that know par. */
  lemma {:induction false} LeftsOwned(m: Pager, cells: seq<Cell>, par: Pgno, h: nat, q: Pgno)
    requires h > 0 && CellsTree(m, cells, par, h) && q in Lefts(cells)
    ensures q != 0 && q in m && m[q].pParent == par && q in CellsBag(m, cells, h)
    decreases |cells|
  {
    if q != cells[0].leftChild {
      LeftsOwned(m, cells[1..], par, h, q);
    }
  }

  lemma SidesOwned(m: Pager, c: Ctx, pre: seq<Cell>, h: nat, q: Pgno)
    requires h > 0 && !c.Top? && CellsTree(m, pre, c.pg, h) && q in Sides(c, pre)
    requires c.InCell? ==> CellsTree(m, c.rest, c.pg, h) && Tree(m, c.right, c.pg, h)
    ensures q != 0 && q in m && m[q].pParent == c.pg && q in Around(m, c, pre, h)
  {
    if q in Lefts(pre) {
      LeftsOwned(m, pre, c.pg, h, q);
    } else if q in Lefts(c.rest) {
      LeftsOwned(m, c.rest, c.pg, h, q);
    }
  }

  /** The group before, with everything the steps below need to know of it. */
  ghost predicate Group(m: Pager, c: Ctx, pre: seq<Cell>, olds: seq<Pgno>, row: seq<Cell>, tail: Pgno, h: nat)
    requires h > 0 && !c.Top?
  {
    && c.pg != 0 && CellsTree(m, pre, c.pg, h) && (c.InCell? ==> CellsTree(m, c.rest, c.pg, h) && Tree(m, c.right, c.pg, h))
    && AnyTrees(m, row, h - 1) && AnyTree(m, tail, h - 1)
    && Known(KidsBag(m, row, tail, h - 1), m) && Known(Around(m, c, pre, h), m) && 0 !in olds
    && Once(multiset{c.pg} + Around(m, c, pre, h) + multiset(olds) + KidsBag(m, row, tail, h - 1))
  }

  lemma GroupIs(m: Pager, c: Ctx, pre: seq<Cell>, divs: seq<Cell>, last: Pgno, h: nat)
    requires h > 0 && !c.Top? && LooseAt(m, WithLeft(c, pre + divs), last, h)
    ensures Group(m, c, pre, Members(divs, last), Row(m, divs, last), Tail(m, last), h)
  {
    GroupParts(m, c, pre, divs, last, h);
    SiblingsTrees(m, c, pre, divs, last, h);
    KidsKnown(m, Row(m, divs, last), Tail(m, last), h - 1);
    AroundKnown(m, c, pre, h);
    NoNullMember(m, divs, last, c.pg, h);
  }

  lemma NoNullMember(m: Pager, divs: seq<Cell>, last: Pgno, par: Pgno, h: nat)
    requires h > 0 && CellsTree(m, divs, par, h) && Loose(m, last, par, h)
    ensures 0 !in Members(divs, last)
  {
    if 0 in Lefts(divs) { LeftsOwned(m, divs, par, h, 0); }
  }

  /** Kids, neighbours, the parent and the siblings, old and new, are apart. */
  lemma AllApart(m: Pager, c: Ctx, pre: seq<Cell>, olds: seq<Pgno>, news: seq<Pgno>, row: seq<Cell>, tail: Pgno, h: nat, q: Pgno)
    requires h > 0 && !c.Top? && Group(m, c, pre, olds, row, tail, h) && Supplied(m, olds, news)
    ensures q in Kids(row, tail) && q != 0 ==>
      h > 1 && q in m && q != c.pg && q !in olds && q !in news && q !in Sides(c, pre)
    ensures q in Sides(c, pre) ==> q != 0 && q in m && m[q].pParent == c.pg && q != c.pg && q !in olds && q !in news
  {
    PartsApart(c.pg, Around(m, c, pre, h), olds, KidsBag(m, row, tail, h - 1), q);
    if q in Kids(row, tail) && q != 0 { KidCounted(m, row, tail, h - 1, q); }
    if q in Sides(c, pre) { SidesOwned(m, c, pre, h, q); }
  }

  lemma {:induction false} KidsOnce(s: seq<Pgno>)
    requires Once(multiset(s))
    ensures forall i, j | 0 <= i < j < |s| :: s[i] != s[j]
    decreases |s|
  {
    if s != [] {
      var t := s[1..];
      MultisetOfCons(s[0], t);
      assert s == [s[0]] + t;
      forall q | q in multiset(t) ensures multiset(t)[q] == 1 && q != s[0] {
        assert multiset(s)[q] == multiset{s[0]}[q] + multiset(t)[q];
        assert q in multiset(s);
      }
      KidsOnce(t);
      forall i, j | 0 <= i < j < |s| ensures s[i] != s[j] {
        assert s[j] == t[j - 1];
        if i == 0 { assert s[j] in multiset(t); }
      }
    }
  }

  lemma KidsAreApart(m: Pager, row: seq<Cell>, tail: Pgno, h: nat)
    requires AnyTrees(m, row, h) && AnyTree(m, tail, h) && Once(KidsBag(m, row, tail, h))
    ensures KidsApartFrom(Kids(row, tail))
  {
    if h == 0 {
      NoKids(m, row);
    } else {
      KidsTopAndBelow(m, row, tail, h);
      OnceParts(multiset(Kids(row, tail)), CellsBelow(m, row, h) + Below(m, tail, h));
      KidsOnce(Kids(row, tail));
    }
  }

  /** No subtree of the group hangs in two places. */
  lemma GroupKidsApart(m: Pager, c: Ctx, pre: seq<Cell>, olds: seq<Pgno>, row: seq<Cell>, tail: Pgno, h: nat)
    requires h > 0 && !c.Top? && Group(m, c, pre, olds, row, tail, h)
    ensures KidsApartFrom(Kids(row, tail))
  {
    OnceParts(multiset{c.pg} + Around(m, c, pre, h) + multiset(olds), KidsBag(m, row, tail, h - 1));
    KidsAreApart(m, row, tail, h - 1);
  }

  // ---------------------------------------------------------------- after the adoptions

  /** The memory after the new siblings, and then their parent, adopted their children. */
  ghost function AfterAdoptions(m1: Pager, l: Layout, c: Ctx): Pager
    requires Ok(l) && !c.Top?
  {
    Adopted(AdoptedAll(m1, l.news, |l.news|), Children(NewParent(l, c)), c.pg)
  }

  /** Everything known when the cells have been dealt out. */
  ghost predicate Ready(m: Pager, m1: Pager, l: Layout, c: Ctx, olds: seq<Pgno>, h: nat)
    requires h > 0 && !c.Top?
  {
    && Group(m, c, l.pre, olds, l.row, l.tail, h) && Supplied(m, olds, l.news) && Dealt(m, m1, l, c, olds)
    && 0 !in l.news
  }

  lemma Halfway(m: Pager, m1: Pager, l: Layout, c: Ctx, olds: seq<Pgno>, h: nat)
    requires h > 0 && !c.Top? && Ready(m, m1, l, c, olds, h)
    ensures AdoptedSoFar(m1, AdoptedAll(m1, l.news, |l.news|), l, |l.news|)
  {
    GroupKidsApart(m, c, l.pre, olds, l.row, l.tail, h);
    AllAdopt(m1, l, |l.news|);
  }

  lemma KidFate(m: Pager, m1: Pager, l: Layout, c: Ctx, olds: seq<Pgno>, h: nat, q: Pgno)
    requires h > 0 && !c.Top? && Ready(m, m1, l, c, olds, h) && q in Kids(l.row, l.tail) && q != 0
    requires AdoptedSoFar(m1, AdoptedAll(m1, l.news, |l.news|), l, |l.news|)
    ensures h > 1 && OnlyParent(m, AfterAdoptions(m1, l, c), q)
    ensures q in AdoptedAll(m1, l.news, |l.news|) && AfterAdoptions(m1, l, c)[q] == AdoptedAll(m1, l.news, |l.news|)[q]
  {
    AllApart(m, c, l.pre, olds, l.news, l.row, l.tail, h, q);
    ParentsChildren(l, c, q);
    assert Kept(m, m1, q, c.pg, olds, l.news);
    assert OnlyParent(m1, AdoptedAll(m1, l.news, |l.news|), q);
  }

  lemma BystanderFate(m: Pager, m1: Pager, l: Layout, c: Ctx, olds: seq<Pgno>, h: nat, q: Pgno)
    requires h > 0 && !c.Top? && Ready(m, m1, l, c, olds, h)
    requires q in m && Away(q, c.pg, olds, l.news, Kids(l.row, l.tail))
    requires AdoptedSoFar(m1, AdoptedAll(m1, l.news, |l.news|), l, |l.news|)
    ensures q in AfterAdoptions(m1, l, c) && AfterAdoptions(m1, l, c)[q] == m[q]
  {
    AllApart(m, c, l.pre, olds, l.news, l.row, l.tail, h, q);
    ParentsChildren(l, c, q);
    assert Kept(m, m1, q, c.pg, olds, l.news);
    assert Spared(m1, AdoptedAll(m1, l.news, |l.news|), q, Kids(l.row, l.tail));
  }

  lemma ParentFate(m: Pager, m1: Pager, l: Layout, c: Ctx, olds: seq<Pgno>, h: nat)
    requires h > 0 && !c.Top? && Ready(m, m1, l, c, olds, h)
    requires AdoptedSoFar(m1, AdoptedAll(m1, l.news, |l.news|), l, |l.news|)
    ensures c.pg in AfterAdoptions(m1, l, c) && AfterAdoptions(m1, l, c)[c.pg] == NewParent(l, c)
  {
    AllApart(m, c, l.pre, olds, l.news, l.row, l.tail, h, c.pg);
    ParentsChildren(l, c, c.pg);
    assert Spared(m1, AdoptedAll(m1, l.news, |l.news|), c.pg, Kids(l.row, l.tail));
  }

  lemma NewFate(m: Pager, m1: Pager, l: Layout, c: Ctx, olds: seq<Pgno>, h: nat, i: int)
    requires h > 0 && !c.Top? && Ready(m, m1, l, c, olds, h) && 0 <= i < |l.cnt|
    requires AdoptedSoFar(m1, AdoptedAll(m1, l.news, |l.news|), l, |l.news|)
    ensures LaidAt(AfterAdoptions(m1, l, c), l, i)
    ensures AfterAdoptions(m1, l, c)[l.news[i]].pParent == c.pg
  {
    LaidStays(m1, AdoptedAll(m1, l.news, |l.news|), l, i);
    assert l.news[i] in l.news;
    ParentsChildren(l, c, l.news[i]);
  }

  /** Every child of new page i knows it. */
  lemma NewOwns(m: Pager, m1: Pager, l: Layout, c: Ctx, olds: seq<Pgno>, h: nat, i: int)
    requires h > 0 && !c.Top? && Ready(m, m1, l, c, olds, h) && 0 <= i < |l.cnt|
    requires AdoptedSoFar(m1, AdoptedAll(m1, l.news, |l.news|), l, |l.news|)
    ensures PageOwns(AfterAdoptions(m1, l, c), l, i)
  {
    var m2, m3 := AdoptedAll(m1, l.news, |l.news|), AfterAdoptions(m1, l, c);
    var kids := Kids(l.row, l.tail);
    assert PageOwns(m2, l, i);
    forall j | Start(l.cnt, i) <= j < l.cnt[i] + 1 && kids[j] != 0 && kids[j] in m3
      ensures m3[kids[j]].pParent == l.news[i]
    {
      KidFate(m, m1, l, c, olds, h, kids[j]);
    }
  }

  lemma {:induction false} KidsReal(m: Pager, row: seq<Cell>, h: nat)
    requires h > 0 && AnyTrees(m, row, h)
    ensures forall i | 0 <= i < |Lefts(row)| :: Lefts(row)[i] != 0
    decreases |row|
  {
    if row != [] { KidsReal(m, row[1..], h); }
  }

  lemma {:induction false} OwnedIfAll(m: Pager, cells: seq<Cell>, par: Pgno, h: nat)
    requires h > 0 ==> forall i | 0 <= i < |cells| :: ParentOf(m, cells[i].leftChild) == par
    ensures Owned(m, cells, par, h)
    decreases |cells|
  {
    if cells != [] {
      assert forall i | 0 <= i < |cells[1..]| :: cells[1..][i] == cells[i + 1];
      OwnedIfAll(m, cells[1..], par, h);
    }
  }

  lemma KidParent(m: Pager, m1: Pager, l: Layout, c: Ctx, olds: seq<Pgno>, h: nat, i: int, j: int)
    requires h > 1 && !c.Top? && Ready(m, m1, l, c, olds, h) && 0 <= i < |l.cnt|
    requires AdoptedSoFar(m1, AdoptedAll(m1, l.news, |l.news|), l, |l.news|)
    requires |Kids(l.row, l.tail)| == |l.row| + 1 && 0 <= Start(l.cnt, i) <= j <= l.cnt[i] <= |l.row|
    ensures ParentOf(AfterAdoptions(m1, l, c), Kids(l.row, l.tail)[j]) == l.news[i]
  {
    var kids := Kids(l.row, l.tail);
    KidsReal(m, l.row, h - 1);
    assert kids[j] != 0;
    KidFate(m, m1, l, c, olds, h, kids[j]);
    NewOwns(m, m1, l, c, olds, h, i);
  }

  lemma NewKnows(m: Pager, m1: Pager, l: Layout, c: Ctx, olds: seq<Pgno>, h: nat, i: int, m3: Pager)
    requires h > 1 && !c.Top? && Ready(m, m1, l, c, olds, h) && 0 <= i < |l.cnt|
    requires AdoptedSoFar(m1, AdoptedAll(m1, l.news, |l.news|), l, |l.news|) && m3 == AfterAdoptions(m1, l, c)
    requires CutAt(|l.row|, l.cnt, i)
    ensures forall j | 0 <= j < |PageCells(l, i)| :: ParentOf(m3, PageCells(l, i)[j].leftChild) == l.news[i]
    ensures ParentOf(m3, PageRight(l, i)) == l.news[i]
  {
    var a, b := Start(l.cnt, i), l.cnt[i];
    LeftsAt(l.row);
    forall j | 0 <= j < |PageCells(l, i)| ensures ParentOf(m3, PageCells(l, i)[j].leftChild) == l.news[i] {
      KidParent(m, m1, l, c, olds, h, i, a + j);
    }
    KidParent(m, m1, l, c, olds, h, i, b);
    assert Kids(l.row, l.tail)[b] == PageRight(l, i);
  }

  lemma NewIsPage(m: Pager, m1: Pager, l: Layout, c: Ctx, olds: seq<Pgno>, h: nat, i: int)
    requires h > 0 && !c.Top? && Ready(m, m1, l, c, olds, h) && 0 <= i < |l.cnt|
    requires AdoptedSoFar(m1, AdoptedAll(m1, l.news, |l.news|), l, |l.news|)
    ensures NewPage(AfterAdoptions(m1, l, c), l.news[i], c.pg, h)
  {
    var m3 := AfterAdoptions(m1, l, c);
    NewFate(m, m1, l, c, olds, h, i);
    assert CutAt(|l.row|, l.cnt, i);
    if h > 1 { NewKnows(m, m1, l, c, olds, h, i, m3); }
    LaidIsPage(m3, l, c.pg, h, i);
  }

  lemma LaidIsPage(m3: Pager, l: Layout, par: Pgno, h: nat, i: int)
    requires h > 0 && Ok(l) && 0 <= i < |l.cnt| && CutAt(|l.row|, l.cnt, i) && LaidAt(m3, l, i) && m3[l.news[i]].pParent == par
    requires h > 1 ==> forall j | 0 <= j < |PageCells(l, i)| :: ParentOf(m3, PageCells(l, i)[j].leftChild) == l.news[i]
    requires h > 1 ==> ParentOf(m3, PageRight(l, i)) == l.news[i]
    requires l.news[i] != 0
    ensures NewPage(m3, l.news[i], par, h)
  {
    OwnedIfAll(m3, PageCells(l, i), l.news[i], h - 1);
  }

  lemma {:induction false} NewPagesConcat(m: Pager, a: seq<Cell>, b: seq<Cell>, par: Pgno, h: nat)
    requires h > 0 && NewPages(m, a, par, h) && NewPages(m, b, par, h)
    ensures NewPages(m, a + b, par, h)
    decreases |a|
  {
    if a == [] {
      assert a + b == b;
    } else {
      assert (a + b)[1..] == a[1..] + b;
      NewPagesConcat(m, a[1..], b, par, h);
    }
  }

  lemma {:induction false} NewArePages(m: Pager, m1: Pager, l: Layout, c: Ctx, olds: seq<Pgno>, h: nat, n: nat)
    requires h > 0 && !c.Top? && Ready(m, m1, l, c, olds, h) && n < |l.cnt|
    requires AdoptedSoFar(m1, AdoptedAll(m1, l.news, |l.news|), l, |l.news|)
    ensures NewPages(AfterAdoptions(m1, l, c), Dividers(l, n), c.pg, h)
    decreases n
  {
    if n > 0 {
      NewArePages(m, m1, l, c, olds, h, n - 1);
      NewIsPage(m, m1, l, c, olds, h, n - 1);
      var d := [Divider(l, n - 1)];
      assert d[1..] == [];
      NewPagesConcat(AfterAdoptions(m1, l, c), Dividers(l, n - 1), d, c.pg, h);
    }
  }

  /** The group is laid out again. */
  lemma IsResettled(m: Pager, m1: Pager, l: Layout, c: Ctx, divs: seq<Cell>, last: Pgno, h: nat)
    requires h > 0 && !c.Top? && LooseAt(m, WithLeft(c, l.pre + divs), last, h)
    requires l.row == Row(m, divs, last) && l.tail == Tail(m, last)
    requires Supplied(m, Members(divs, last), l.news) && 0 !in l.news
    requires Dealt(m, m1, l, c, Members(divs, last))
    ensures Resettled(m, AfterAdoptions(m1, l, c), c, l.pre, divs, last, Dividers(l, |l.cnt| - 1), LastOf(l), h)
    ensures Members(Dividers(l, |l.cnt| - 1), LastOf(l)) == l.news
  {
    var olds := Members(divs, last);
    GroupIs(m, c, l.pre, divs, last, h);
    assert Ready(m, m1, l, c, olds, h);
    ReadyIsResettled(m, m1, l, c, divs, last, h);
  }

  lemma ReadyIsResettled(m: Pager, m1: Pager, l: Layout, c: Ctx, divs: seq<Cell>, last: Pgno, h: nat)
    requires h > 0 && !c.Top? && Ready(m, m1, l, c, Members(divs, last), h)
    requires l.row == Row(m, divs, last) && l.tail == Tail(m, last)
    ensures Resettled(m, AfterAdoptions(m1, l, c), c, l.pre, divs, last, Dividers(l, |l.cnt| - 1), LastOf(l), h)
    ensures Members(Dividers(l, |l.cnt| - 1), LastOf(l)) == l.news
  {
    var olds := Members(divs, last);
    NewMembers(l);
    Halfway(m, m1, l, c, olds, h);
    PagesAfter(m, m1, l, c, olds, h);
    AllLaidOut(m, m1, l, c, olds, h);
    Regathered(AfterAdoptions(m1, l, c), l);
    ResettledFates(m, m1, l, c, olds, h);
    Assemble(m, AfterAdoptions(m1, l, c), l, c, divs, last, h);
  }

  lemma Assemble(m: Pager, m3: Pager, l: Layout, c: Ctx, divs: seq<Cell>, last: Pgno, h: nat)
    requires h > 0 && !c.Top? && Ok(l) && l.row == Row(m, divs, last) && l.tail == Tail(m, last)
    requires c.pg in m3 && m3[c.pg] == NewParent(l, c)
    requires NewPages(m3, Dividers(l, |l.cnt| - 1), c.pg, h) && NewPage(m3, LastOf(l), c.pg, h)
    requires Row(m3, Dividers(l, |l.cnt| - 1), LastOf(l)) == l.row && Tail(m3, LastOf(l)) == l.tail
    requires OnlyParents(m, m3, Kids(l.row, l.tail)) && Supplied(m, Members(divs, last), l.news)
    requires Members(Dividers(l, |l.cnt| - 1), LastOf(l)) == l.news
    requires Effect(m, m3, c.pg, Members(divs, last), l.news, Kids(l.row, l.tail))
    ensures Resettled(m, m3, c, l.pre, divs, last, Dividers(l, |l.cnt| - 1), LastOf(l), h)
  {}

  lemma NewMembers(l: Layout)
    requires Ok(l)
    ensures Members(Dividers(l, |l.cnt| - 1), LastOf(l)) == l.news
  {
    DividersLefts(l, |l.cnt| - 1);
    assert l.news == l.news[..|l.cnt| - 1] + [LastOf(l)];
  }

  lemma PagesAfter(m: Pager, m1: Pager, l: Layout, c: Ctx, olds: seq<Pgno>, h: nat)
    requires h > 0 && !c.Top? && Ready(m, m1, l, c, olds, h)
    requires AdoptedSoFar(m1, AdoptedAll(m1, l.news, |l.news|), l, |l.news|)
    ensures var m3 := AfterAdoptions(m1, l, c);
      && c.pg in m3 && m3[c.pg] == NewParent(l, c)
      && NewPages(m3, Dividers(l, |l.cnt| - 1), c.pg, h) && NewPage(m3, LastOf(l), c.pg, h)
  {
    ParentFate(m, m1, l, c, olds, h);
    NewArePages(m, m1, l, c, olds, h, |l.cnt| - 1);
    NewIsPage(m, m1, l, c, olds, h, |l.cnt| - 1);
  }

  lemma AllLaidOut(m: Pager, m1: Pager, l: Layout, c: Ctx, olds: seq<Pgno>, h: nat)
    requires h > 0 && !c.Top? && Ready(m, m1, l, c, olds, h)
    requires AdoptedSoFar(m1, AdoptedAll(m1, l.news, |l.news|), l, |l.news|)
    ensures forall i | 0 <= i < |l.cnt| :: LaidAt(AfterAdoptions(m1, l, c), l, i)
  {
    forall i | 0 <= i < |l.cnt| ensures LaidAt(AfterAdoptions(m1, l, c), l, i) {
      NewFate(m, m1, l, c, olds, h, i);
    }
  }

  lemma ResettledFates(m: Pager, m1: Pager, l: Layout, c: Ctx, olds: seq<Pgno>, h: nat)
    requires h > 0 && !c.Top? && Ready(m, m1, l, c, olds, h)
    requires AdoptedSoFar(m1, AdoptedAll(m1, l.news, |l.news|), l, |l.news|)
    ensures OnlyParents(m, AfterAdoptions(m1, l, c), Kids(l.row, l.tail))
    ensures Effect(m, AfterAdoptions(m1, l, c), c.pg, olds, l.news, Kids(l.row, l.tail))
  {
    var m3, kids := AfterAdoptions(m1, l, c), Kids(l.row, l.tail);
    forall i | 0 <= i < |kids| && kids[i] != 0 ensures OnlyParent(m, m3, kids[i]) {
      KidFate(m, m1, l, c, olds, h, kids[i]);
    }
    forall q | q in m && Away(q, c.pg, olds, l.news, kids) ensures q in m3 && m3[q] == m[q] {
      BystanderFate(m, m1, l, c, olds, h, q);
    }
  }
}

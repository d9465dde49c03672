/** One round of balance seen from outside: the group it works on, and what the round leaves behind. */
module BtreeGroup {
  import opened FileFormat
  import opened BtreeShape
  import opened BtreeGather
  import opened BtreeSiblings
  import opened BtreeResettled
  import opened BtreeLayout
  import opened BtreeAdopt
  import opened BtreeSettle
  import opened BtreeSound
  import opened BalanceSplit

  /** Page p may be balanced: it hangs in a whole tree, or is the only child of a root just deepened. */
  ghost predicate Balanceable(m: Pager, c: Ctx, p: Pgno, h: nat)
    requires h > 0
  {
    LooseAt(m, c, p, h) && (Tree(m, p, Par(c), h) || (c.AtRight? && c.left == []))
  }

  /** The group's own hole: its last page, and all before it to the left. */
  ghost function GroupCtx(m: Pager, c: Ctx, last: nat): Ctx
    requires !c.Top? && c.pg in m
  {
    ChildCtx(c.up, c.pg, m[c.pg], last)
  }

  ghost predicate LooseHolds(m: Pager, c: Ctx, p: Pgno, h: nat, entries: seq<Payload>, pages: multiset<Pgno>)
    requires h > 0
  {
    LooseAt(m, c, p, h) && Entries(m, c, p, h) == entries && Pages(m, c, p, h) == pages
  }

  /** Any run of siblings can be taken as the group. */
  lemma GroupHolds(m: Pager, c: Ctx, p: Pgno, h: nat, last: nat, entries: seq<Payload>, pages: multiset<Pgno>)
    requires h > 0 && !c.Top? && Balanceable(m, c, p, h) && c.pg in m && last <= |m[c.pg].apCell|
    requires Entries(m, c, p, h) == entries && Pages(m, c, p, h) == pages
    ensures LooseHolds(m, GroupCtx(m, c, last), Child(m[c.pg], last), h, entries, pages)
  {
    if Tree(m, p, Par(c), h) {
      MoveUp(m, c, p, h);
      MoveDown(m, c.up, c.pg, h, last);
      AtIsLoose(m, GroupCtx(m, c, last), Child(m[c.pg], last), h);
    }
  }

  // ---------------------------------------------------------------- after the round

  /** Pages outside the tree are untouched, and the file has no pages but these and the tree's. */
  ghost predicate Conserved(m: Pager, b: multiset<Pgno>, m': Pager, b': multiset<Pgno>) {
    && (forall q | q in m && q !in b :: q in m' && m'[q] == m[q])
    && (forall q | q in b' :: q in b || q !in m)
    && (forall q | q in m' :: q in b' || (q in m && q !in b))
  }

  /** Page numbers after the round: the new siblings for the old. */
  ghost predicate Renumbered(m: Pager, m': Pager, olds: seq<Pgno>, news: seq<Pgno>) {
    forall q | q in m' :: q in news || (q in m && q !in olds)
  }

  lemma RoundConserves(m: Pager, m': Pager, par: Pgno, around: multiset<Pgno>, olds: seq<Pgno>, news: seq<Pgno>,
                       row: seq<Cell>, tail: Pgno, h: nat)
    requires AnyTrees(m, row, h) && AnyTree(m, tail, h)
    requires Effect(m, m', par, olds, news, Kids(row, tail)) && Supplied(m, olds, news) && Renumbered(m, m', olds, news)
    ensures var o := multiset{par} + around + KidsBag(m, row, tail, h);
      Conserved(m, o + multiset(olds), m', o + multiset(news))
  {
    var o := multiset{par} + around + KidsBag(m, row, tail, h);
    KidsKnown(m, row, tail, h);
    forall q | q in m && q !in o + multiset(olds) ensures q in m' && m'[q] == m[q] {
      assert q !in multiset(olds);
      if q != 0 && q in Kids(row, tail) { KidCounted(m, row, tail, h, q); }
      assert Away(q, par, olds, news, Kids(row, tail));
    }
    forall q | q in o + multiset(news) ensures q in o + multiset(olds) || q !in m {
      assert q in multiset(news) ==> q in news;
      assert q in olds ==> q in multiset(olds);
    }
    forall q | q in m' ensures q in o + multiset(news) || (q in m && q !in o + multiset(olds)) {
      assert q in news ==> q in multiset(news);
      assert q in multiset(olds) ==> q in olds;
    }
  }

  /** New sibling i holds some cells, and no more than fit. */
  lemma NewIsSound(m': Pager, l: Layout, i: int, root: Pgno)
    requires Ok(l) && 0 <= i < |l.cnt| && LaidAt(m', l, i) && Fits(Sizes(l.row), l.cnt)
    ensures SoundAt(m', l.news[i], root)
  {
    assert PageFits(Sizes(l.row), l.cnt, i);
    SliceBytes(l.row, Start(l.cnt, i), l.cnt[i]);
  }

  lemma OldStaysSound(m: Pager, m': Pager, par: Pgno, olds: seq<Pgno>, news: seq<Pgno>, kids: seq<Pgno>, q: Pgno, root: Pgno)
    requires Effect(m, m', par, olds, news, kids) && OnlyParents(m, m', kids) && Supplied(m, olds, news)
    requires q in m && q != par && q !in olds && SoundAt(m, q, root)
    ensures SoundAt(m', q, root)
  {
    if Away(q, par, olds, news, kids) {
      assert m'[q] == m[q];
    } else {
      var i :| 0 <= i < |kids| && kids[i] == q;
      assert OnlyParent(m, m', kids[i]);
    }
  }

  /** Every page but the parent is sound after the round. */
  lemma RoundSound(m: Pager, m': Pager, l: Layout, c: Ctx, olds: seq<Pgno>, p: Pgno, h: nat, root: Pgno)
    requires h > 0 && !c.Top? && Group(m, c, l.pre, olds, l.row, l.tail, h) && Supplied(m, olds, l.news)
    requires Ok(l) && Fits(Sizes(l.row), l.cnt) && forall i | 0 <= i < |l.cnt| :: LaidAt(m', l, i)
    requires Effect(m, m', c.pg, olds, l.news, Kids(l.row, l.tail)) && OnlyParents(m, m', Kids(l.row, l.tail))
    requires p in olds && SoundBut(m, multiset{c.pg} + Around(m, c, l.pre, h) + KidsBag(m, l.row, l.tail, h - 1) + multiset(olds), {p, c.pg}, root)
    ensures SoundBut(m', multiset{c.pg} + Around(m, c, l.pre, h) + KidsBag(m, l.row, l.tail, h - 1) + multiset(l.news), {c.pg}, root)
  {
    var around, kb := Around(m, c, l.pre, h), KidsBag(m, l.row, l.tail, h - 1);
    var b := multiset{c.pg} + around + kb + multiset(l.news);
    forall q | q in b && q !in {c.pg} ensures SoundAt(m', q, root) {
      if q in l.news {
        var i :| 0 <= i < |l.news| && l.news[i] == q;
        NewIsSound(m', l, i, root);
      } else {
        assert q !in multiset(l.news);
        PartsApart(c.pg, around, olds, kb, q);
        assert q in multiset{c.pg} + around + kb + multiset(olds);
        OldStaysSound(m, m', c.pg, olds, l.news, Kids(l.row, l.tail), q, root);
      }
    }
  }

  /** The pages of the tree after the round. */
  ghost function NewBag(m: Pager, l: Layout, g: Ctx, divs: seq<Cell>, last: Pgno, h: nat): multiset<Pgno>
    requires h > 0 && !g.Top?
  {
    Others(m, g, l.pre, divs, last, h) + multiset(l.news)
  }

  /** The group before the round, ready to be laid out by l. */
  ghost predicate Planned(m: Pager, l: Layout, g: Ctx, divs: seq<Cell>, last: Pgno, h: nat)
    requires h > 0 && !g.Top?
  {
    && Ok(l) && l.par == g.pg && LooseAt(m, WithLeft(g, l.pre + divs), last, h)
    && l.row == Row(m, divs, last) && l.tail == Tail(m, last)
    && Supplied(m, Members(divs, last), l.news) && 0 !in l.news
  }

  /** The same tree and entries, over other pages. */
  lemma RoundHolds(m: Pager, m1: Pager, l: Layout, g: Ctx, divs: seq<Cell>, last: Pgno, h: nat)
    requires h > 0 && !g.Top? && Planned(m, l, g, divs, last, h) && Dealt(m, m1, l, g, Members(divs, last))
    ensures Pages(m, WithLeft(g, l.pre + divs), last, h) == Others(m, g, l.pre, divs, last, h) + multiset(Members(divs, last))
    ensures Holds(AfterAdoptions(m1, l, g), g.up, g.pg, h + 1,
                  Entries(m, WithLeft(g, l.pre + divs), last, h), NewBag(m, l, g, divs, last, h))
  {
    IsResettled(m, m1, l, g, divs, last, h);
    var m3, divs', last' := AfterAdoptions(m1, l, g), Dividers(l, |l.cnt| - 1), LastOf(l);
    ResettledAt(m, m3, g, l.pre, divs, last, divs', last', h);
    MoveUp(m3, WithLeft(g, l.pre + divs'), last', h);
  }

  /** Everything but the parent is sound, and no page is lost or leaked. */
  lemma RoundIsSound(m: Pager, m1: Pager, l: Layout, g: Ctx, divs: seq<Cell>, last: Pgno, h: nat, p: Pgno, root: Pgno)
    requires h > 0 && !g.Top? && Planned(m, l, g, divs, last, h) && Dealt(m, m1, l, g, Members(divs, last))
    requires Fits(Sizes(l.row), l.cnt) && p in Members(divs, last)
    requires SoundBut(m, Others(m, g, l.pre, divs, last, h) + multiset(Members(divs, last)), {p, g.pg}, root)
    ensures SoundBut(AfterAdoptions(m1, l, g), NewBag(m, l, g, divs, last, h), {g.pg}, root)
  {
    var olds, m3 := Members(divs, last), AfterAdoptions(m1, l, g);
    GroupIs(m, g, l.pre, divs, last, h);
    Halfway(m, m1, l, g, olds, h);
    ResettledFates(m, m1, l, g, olds, h);
    forall i | 0 <= i < |l.cnt| ensures LaidAt(m3, l, i) {
      NewFate(m, m1, l, g, olds, h, i);
    }
    RoundSound(m, m3, l, g, olds, p, h, root);
  }

  lemma RenumberedAfter(m: Pager, m1: Pager, l: Layout, g: Ctx, olds: seq<Pgno>)
    requires Ok(l) && !g.Top? && Renumbered(m, m1, olds, l.news)
    ensures Renumbered(m, AfterAdoptions(m1, l, g), olds, l.news)
  {
    AdoptedAllShape(m1, l.news, |l.news|);
  }

  lemma RoundIsConservative(m: Pager, m1: Pager, l: Layout, g: Ctx, divs: seq<Cell>, last: Pgno, h: nat)
    requires h > 0 && !g.Top? && Planned(m, l, g, divs, last, h) && Dealt(m, m1, l, g, Members(divs, last))
    requires Renumbered(m, m1, Members(divs, last), l.news)
    ensures Conserved(m, Others(m, g, l.pre, divs, last, h) + multiset(Members(divs, last)),
                      AfterAdoptions(m1, l, g), NewBag(m, l, g, divs, last, h))
  {
    GroupIs(m, g, l.pre, divs, last, h);
    ReadyConserves(m, m1, AfterAdoptions(m1, l, g), l, g, Members(divs, last), h, Others(m, g, l.pre, divs, last, h));
  }

  lemma ReadyConserves(m: Pager, m1: Pager, m3: Pager, l: Layout, g: Ctx, olds: seq<Pgno>, h: nat, others: multiset<Pgno>)
    requires h > 0 && !g.Top? && Ready(m, m1, l, g, olds, h) && Renumbered(m, m1, olds, l.news)
    requires m3 == AfterAdoptions(m1, l, g)
    requires others == multiset{g.pg} + Around(m, g, l.pre, h) + KidsBag(m, l.row, l.tail, h - 1)
    ensures Conserved(m, others + multiset(olds), m3, others + multiset(l.news))
  {
    ReadyEffect(m, m1, m3, l, g, olds, h);
    RoundConserves(m, m3, g.pg, Around(m, g, l.pre, h), olds, l.news, l.row, l.tail, h - 1);
  }

  lemma ReadyEffect(m: Pager, m1: Pager, m3: Pager, l: Layout, g: Ctx, olds: seq<Pgno>, h: nat)
    requires h > 0 && !g.Top? && Ready(m, m1, l, g, olds, h) && Renumbered(m, m1, olds, l.news)
    requires m3 == AfterAdoptions(m1, l, g)
    ensures Effect(m, m3, g.pg, olds, l.news, Kids(l.row, l.tail)) && Supplied(m, olds, l.news)
    ensures AnyTrees(m, l.row, h - 1) && AnyTree(m, l.tail, h - 1) && Renumbered(m, m3, olds, l.news)
  {
    Halfway(m, m1, l, g, olds, h);
    ResettledFates(m, m1, l, g, olds, h);
    RenumberedAfter(m, m1, l, g, olds);
  }
}

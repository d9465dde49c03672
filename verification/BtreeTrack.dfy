/** The cursor that balance keeps on its entry while cells move to other pages. */
module BtreeTrack {
  import opened FileFormat
  import opened BtreeShape
  import opened BtreeGather
  import opened BtreeSiblings
  import opened BtreeResettled
  import opened BtreeLayout
  import opened BtreeAdopt
  import opened BtreeSettle
  import opened BtreeGroup
  import opened BtreePlaces
  import opened BtreeRoot
  import opened BalanceSplit

  /** No cursor, or a place on a page. */
  datatype Cur = NoCur | On(pPage: Pgno, idx: int)

  /** The entry that a cursor is to stay on, if there is a cursor. */
  datatype Goal = NoGoal | Entry(item: Payload)

  /** The cursor, if there is one, is on a cell of the tree that holds the entry. */
  ghost predicate CurOn(m: Pager, b: multiset<Pgno>, cur: Cur, x: Goal) {
    if x.NoGoal? then cur.NoCur? else cur.On? && cur.pPage in b && Holding(m, cur, x.item)
  }

  ghost predicate Holding(m: Pager, cur: Cur, x: Payload)
    requires cur.On?
  {
    cur.pPage in m && 0 <= cur.idx < |m[cur.pPage].apCell| && m[cur.pPage].apCell[cur.idx].item == x
  }

  // ---------------------------------------------------------------- the pages above a page

  function Spine(c: Ctx): set<Pgno> {
    if c.Top? then {} else {c.pg} + Spine(c.up)
  }

  /** The cursor is on none of the pages above. */
  predicate OffSpine(c: Ctx, cur: Cur) {
    cur.On? ==> cur.pPage !in Spine(c)
  }

  lemma {:induction false} SpineInCtx(m: Pager, c: Ctx, h: nat)
    ensures forall q | q in Spine(c) :: q in CtxBag(m, c, h)
    decreases c
  {
    if !c.Top? { SpineInCtx(m, c.up, h + 1); }
  }

  lemma SelfOffSpine(m: Pager, c: Ctx, p: Pgno, h: nat)
    requires h > 0 && At(m, c, p, h)
    ensures p !in Spine(c)
  {
    SpineInCtx(m, c, h);
    NotAround(m, c, p, h);
  }

  /** The root's cells, and a cursor on them, move to the new page. */
  lemma DeepenedCursor(m: Pager, root: Pgno, child: Pgno, b: multiset<Pgno>, cur: Cur, cur1: Cur, x: Goal)
    requires root in m && child !in m && child != root && CurOn(m, b, cur, x)
    requires cur1 == if cur.On? && cur.pPage == root then On(child, cur.idx) else cur
    ensures CurOn(Deepened(m, root, child), b + multiset{child}, cur1, x) && OffSpine(AtRight(Top, root, []), cur1)
  {
    assert Spine(AtRight(Top, root, [])) == {root};
  }

  /** The root takes over its only child's cells, and a cursor on them; the pages below keep theirs. */
  lemma FlattenedCursor(m: Pager, root: Pgno, child: Pgno, h: nat, b: multiset<Pgno>, cur: Cur, cur1: Cur, x: Goal)
    requires h > 1 && Flattenable(m, root, child, h) && m[root].apCell == [] && CurOn(m, b, cur, x)
    requires b == multiset{root} + multiset{} + multiset([child]) + KidsBag(m, m[child].apCell, m[child].rightChild, h - 2)
    requires cur1 == if cur.On? && cur.pPage == child then On(root, cur.idx) else cur
    ensures CurOn(Flattened(m, root, child), multiset{root} + KidsBag(m, m[child].apCell, m[child].rightChild, h - 2), cur1, x)
  {
    if cur.On? {
      var kb := KidsBag(m, m[child].apCell, m[child].rightChild, h - 2);
      FlattenedRoot(m, root, child, h);
      if cur.pPage != child {
        assert cur.pPage != root;
        InKids(root, child, kb, cur.pPage);
        PartsApart(root, multiset{}, [child], kb, cur.pPage);
      }
    }
  }

  lemma InKids(root: Pgno, child: Pgno, kb: multiset<Pgno>, q: Pgno)
    requires q in multiset{root} + multiset{} + multiset([child]) + kb && q != root && q != child
    ensures q in kb
  {
    assert q !in multiset([child]);
  }

  // ---------------------------------------------------------------- where a cell of the row goes

  /** What dealing page i does to a cursor that stood at place k of the row. */
  ghost function Moved(l: Layout, k: int, cur: Cur, i: nat): Cur
    requires Ok(l) && i < |l.cnt| && CutAt(|l.row|, l.cnt, i)
  {
    if Start(l.cnt, i) <= k < l.cnt[i] then On(l.news[i], k - Start(l.cnt, i))
    else if i + 1 < |l.cnt| && k == l.cnt[i] then On(l.par, |l.pre| + i)
    else cur
  }

  /** And dealing the first n pages. */
  ghost function Tracked(l: Layout, k: int, cur: Cur, n: nat): Cur
    requires Ok(l) && n <= |l.cnt|
  {
    if n == 0 then cur
    else
      assert CutAt(|l.row|, l.cnt, n - 1);
      Moved(l, k, Tracked(l, k, cur, n - 1), n - 1)
  }

  ghost predicate TrackedTo(l: Layout, k: int, cur0: Cur, cur: Cur, n: nat)
    requires Ok(l) && n <= |l.cnt|
  {
    cur.On? == cur0.On? && cur == if cur0.On? then Tracked(l, k, cur0, n) else cur0
  }

  lemma TrackedStep(l: Layout, k: int, cur0: Cur, cur: Cur, cur1: Cur, i: nat)
    requires Ok(l) && i < |l.cnt| && TrackedTo(l, k, cur0, cur, i) && CutAt(|l.row|, l.cnt, i)
    requires cur1 == if cur.On? then Moved(l, k, cur, i) else cur
    ensures TrackedTo(l, k, cur0, cur1, i + 1)
  {}

  /** The cursor is where cell k of the row went. */
  ghost predicate AtCell(l: Layout, k: int, cur: Cur)
    requires Ok(l)
  {
    0 <= k < |l.row| && cur.On? && exists i: nat :: AtCellOn(l, k, cur, i)
  }

  ghost predicate AtCellOn(l: Layout, k: int, cur: Cur, i: nat)
    requires Ok(l) && 0 <= k < |l.row|
  {
    && i < |l.cnt| && CutAt(|l.row|, l.cnt, i)
    && ((Start(l.cnt, i) <= k < l.cnt[i] && cur == On(l.news[i], k - Start(l.cnt, i)))
        || (i + 1 < |l.cnt| && k == l.cnt[i] && cur == On(l.par, |l.pre| + i)))
  }

  lemma {:induction false} TrackedIs(l: Layout, k: int, cur: Cur, n: nat)
    requires Ok(l) && n <= |l.cnt|
    ensures var next := if n == 0 then 0 else if n < |l.cnt| then l.cnt[n - 1] + 1 else |l.row|;
      if 0 <= k < next then AtCell(l, k, Tracked(l, k, cur, n)) else Tracked(l, k, cur, n) == cur
    decreases n
  {
    if n > 0 {
      TrackedIs(l, k, cur, n - 1);
      assert CutAt(|l.row|, l.cnt, n - 1);
      if 0 <= k < |l.row| && (Start(l.cnt, n - 1) <= k < l.cnt[n - 1] || (n < |l.cnt| && k == l.cnt[n - 1])) {
        assert AtCellOn(l, k, Tracked(l, k, cur, n), n - 1);
      }
    }
  }

  /** Once the pages are laid out, the cursor there holds the row's entry. */
  lemma AtCellHolds(m3: Pager, l: Layout, c: Ctx, k: int, cur: Cur)
    requires Ok(l) && !c.Top? && l.par == c.pg && AtCell(l, k, cur)
    requires forall i | 0 <= i < |l.cnt| :: LaidAt(m3, l, i)
    requires c.pg in m3 && m3[c.pg] == NewParent(l, c)
    ensures Holding(m3, cur, l.row[k].item) && (cur.pPage in l.news || cur.pPage == l.par)
  {
    var i: nat :| AtCellOn(l, k, cur, i);
    assert LaidAt(m3, l, i);
    if Start(l.cnt, i) <= k < l.cnt[i] {
      assert l.news[i] in l.news;
    } else {
      DividerAt(l, |l.cnt| - 1, i);
    }
  }

  lemma {:induction false} DividerAt(l: Layout, n: nat, i: nat)
    requires Ok(l) && i < n < |l.cnt|
    ensures Dividers(l, n)[i] == Divider(l, i)
    decreases n
  {
    if i < n - 1 { DividerAt(l, n - 1, i); }
  }

  // ---------------------------------------------------------------- where a cursor stands in the row

  /** The place of the cursor's cell in the row of its group; behind the row if it is not in the group. */
  ghost predicate RowIndex(m: Pager, par: Pgno, nxDiv: nat, pgnoOld: seq<Pgno>, row: seq<Cell>, cur: Cur, k: int)
    requires cur.On? && par in m
  {
    if cur.pPage in pgnoOld then
      cur.pPage in m && 0 <= cur.idx < |m[cur.pPage].apCell| ==>
        0 <= k < |row| && row[k].item == m[cur.pPage].apCell[cur.idx].item
    else if cur.pPage == par && nxDiv <= cur.idx < nxDiv + |pgnoOld| - 1 && cur.idx < |m[par].apCell| then
      0 <= k < |row| && row[k].item == m[par].apCell[cur.idx].item
    else k > |row|
  }

  // ---------------------------------------------------------------- after the round

  /** A page of the tree outside the group keeps its cells. */
  lemma OutsideKept(m: Pager, m3: Pager, c: Ctx, l: Layout, olds: seq<Pgno>, h: nat, q: Pgno)
    requires h > 0 && !c.Top? && Group(m, c, l.pre, olds, l.row, l.tail, h) && Supplied(m, olds, l.news)
    requires Effect(m, m3, c.pg, olds, l.news, Kids(l.row, l.tail)) && OnlyParents(m, m3, Kids(l.row, l.tail))
    requires q in m && q != c.pg && q !in olds
    ensures q in m3 && m3[q].apCell == m[q].apCell && q !in l.news
  {
    var kids := Kids(l.row, l.tail);
    if q != 0 && q in kids {
      var i :| 0 <= i < |kids| && kids[i] == q;
      assert OnlyParent(m, m3, kids[i]);
    } else {
      assert Away(q, c.pg, olds, l.news, kids);
    }
  }

  /** New pages and the parent are not above the parent. */
  lemma GroupOffSpine(m: Pager, c: Ctx, pre: seq<Cell>, olds: seq<Pgno>, news: seq<Pgno>, row: seq<Cell>, tail: Pgno, h: nat, q: Pgno)
    requires h > 0 && !c.Top? && Group(m, c, pre, olds, row, tail, h) && Supplied(m, olds, news)
    requires q in news || q == c.pg
    ensures q !in Spine(c.up)
  {
    if q in Spine(c.up) {
      SpineInCtx(m, c.up, h + 1);
      InAround(q, CellsBag(m, pre, h), RestBag(m, c, h), CtxBag(m, c.up, h + 1));
      assert q in Around(m, c, pre, h);
      PartsApart(c.pg, Around(m, c, pre, h), olds, KidsBag(m, row, tail, h - 1), q);
      assert false;
    }
  }

  lemma InAround(q: Pgno, a: multiset<Pgno>, b: multiset<Pgno>, d: multiset<Pgno>)
    ensures q in d ==> q in a + b + d
  {}

  /** Where the round took the cursor. */
  ghost predicate RoundCursor(l: Layout, olds: seq<Pgno>, k: int, cur: Cur, cur3: Cur)
    requires Ok(l)
  {
    if 0 <= k < |l.row| then AtCell(l, k, cur3) else cur3 == cur && (cur.On? ==> cur.pPage != l.par && cur.pPage !in olds)
  }

  lemma RoundTracks(m: Pager, m1: Pager, m3: Pager, l: Layout, g: Ctx, divs: seq<Cell>, last: Pgno, h: nat,
                    k: int, cur: Cur, cur3: Cur, x: Goal)
    requires h > 0 && !g.Top? && Planned(m, l, g, divs, last, h) && Dealt(m, m1, l, g, Members(divs, last))
    requires m3 == AfterAdoptions(m1, l, g)
    requires CurOn(m, Others(m, g, l.pre, divs, last, h) + multiset(Members(divs, last)), cur, x) && OffSpine(g.up, cur)
    requires cur.On? && x.Entry? ==> RoundCursor(l, Members(divs, last), k, cur, cur3) && (0 <= k < |l.row| ==> l.row[k].item == x.item)
    requires cur.NoCur? ==> cur3 == cur
    ensures CurOn(m3, NewBag(m, l, g, divs, last, h), cur3, x) && OffSpine(g.up, cur3)
  {
    if cur.On? {
      var olds := Members(divs, last);
      GroupIs(m, g, l.pre, divs, last, h);
      Halfway(m, m1, l, g, olds, h);
      if 0 <= k < |l.row| {
        AllLaidOut(m, m1, l, g, olds, h);
        ParentFate(m, m1, l, g, olds, h);
        AtCellHolds(m3, l, g, k, cur3);
        GroupOffSpine(m, g, l.pre, olds, l.news, l.row, l.tail, h, cur3.pPage);
        InNewBag(Others(m, g, l.pre, divs, last, h), g.pg, l.news, cur3.pPage, Around(m, g, l.pre, h), KidsBag(m, l.row, l.tail, h - 1));
      } else {
        ResettledFates(m, m1, l, g, olds, h);
        OutsideKept(m, m3, g, l, olds, h, cur.pPage);
        StaysInBag(Others(m, g, l.pre, divs, last, h), olds, l.news, cur.pPage);
      }
    }
  }

  lemma InNewBag(others: multiset<Pgno>, par: Pgno, news: seq<Pgno>, q: Pgno, around: multiset<Pgno>, kids: multiset<Pgno>)
    requires others == multiset{par} + around + kids && (q in news || q == par)
    ensures q in others + multiset(news)
  {
    assert q in news ==> q in multiset(news);
  }

  lemma StaysInBag(others: multiset<Pgno>, olds: seq<Pgno>, news: seq<Pgno>, q: Pgno)
    requires q in others + multiset(olds) && q !in olds
    ensures q in others + multiset(news)
  {
    assert q !in multiset(olds);
  }

  /** What balance makes of the cursor. */
  ghost function BalancedCursor(l: Layout, k: int, cur: Cur, idxDivLast: int, nOld: nat): Cur
    requires Ok(l)
  {
    if cur.NoCur? then cur
    else Shifted(Tracked(l, k, cur, |l.cnt|), l.par, |l.row|, k, idxDivLast, nOld, |l.news|)
  }

  /** A cursor on the parent that was not met among the cells dealt. */
  function Shifted(cur: Cur, par: Pgno, j: int, k: int, idxDivLast: int, nOld: nat, nNew: nat): Cur {
    if cur.On? && j <= k && cur.pPage == par then On(par, ShiftedIdx(cur.idx, idxDivLast, nOld, nNew)) else cur
  }

  lemma BalancedIsRound(m: Pager, l: Layout, nxDiv: nat, olds: seq<Pgno>, k: int, cur: Cur, idxDivLast: int, x: Payload)
    requires Ok(l) && l.par in m && cur.On? && RowIndex(m, l.par, nxDiv, olds, l.row, cur, k)
    requires cur.pPage != l.par && Holding(m, cur, x)
    ensures RoundCursor(l, olds, k, cur, BalancedCursor(l, k, cur, idxDivLast, |olds|))
    ensures 0 <= k < |l.row| ==> l.row[k].item == x
  {
    TrackedIs(l, k, cur, |l.cnt|);
  }

  // ---------------------------------------------------------------- the parent's own cells

  /** Where the parent's cell at index k is after its group of nOld pages at nxDiv became nNew pages. */
  function ParentPlace(k: int, nxDiv: nat, nOld: nat, nNew: nat): int
    requires k < nxDiv || nxDiv + nOld <= k + 1
  {
    if k < nxDiv then k else k + nNew - nOld
  }

  /** What balance does to a cursor index on the parent: it compares with the last entry of idxDiv, which may not be set. */
  function ShiftedIdx(k: int, idxDivLast: int, nOld: nat, nNew: nat): int {
    if k > idxDivLast then k + nNew - nOld else k
  }

  /**
   * A cursor on a cell of the parent outside the group stays on its entry if and only if the number of pages did not
   * change, or the comparison puts it on the right side: a cell right after the group, whose index idxDiv holds, is not
   * moved with the others.
   */
  lemma ParentCursorExactly(k: int, nxDiv: nat, nOld: nat, nNew: nat, idxDivLast: int)
    requires 1 <= nOld && (k < nxDiv || nxDiv + nOld <= k + 1)
    ensures ShiftedIdx(k, idxDivLast, nOld, nNew) == ParentPlace(k, nxDiv, nOld, nNew)
            <==> nOld == nNew || (k > idxDivLast <==> k >= nxDiv)
    ensures idxDivLast == nxDiv + nOld - 1 ==>
      (ShiftedIdx(k, idxDivLast, nOld, nNew) == ParentPlace(k, nxDiv, nOld, nNew) <==> nOld == nNew || k != nxDiv + nOld - 1)
  {}

  /** There the entry of the parent's cell at index k is. */
  lemma ParentEntry(m: Pager, l: Layout, g: Ctx, divs: seq<Cell>, last: Pgno, k: nat)
    requires Ok(l) && !g.Top? && g == WithLeft(g, l.pre + divs) && g.pg in m && m[g.pg] == ParentPage(g, last)
    requires k < |m[g.pg].apCell| && (k < |l.pre| || |l.pre| + |divs| <= k)
    ensures var k1 := ParentPlace(k, |l.pre|, |divs| + 1, |l.cnt|);
      0 <= k1 < |NewParent(l, g).apCell| && NewParent(l, g).apCell[k1].item == m[g.pg].apCell[k].item
  {}

  /** Three pages became four: a cursor on the cell right after them, number 2, should be on number 3 and is left on 2. */
  lemma CellAfterGroupMissed()
    ensures ParentPlace(2, 0, 3, 4) == 3 && ShiftedIdx(2, 2, 3, 4) == 2
  {}
}

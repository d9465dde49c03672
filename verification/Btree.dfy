/** Balancing the pages of a B-tree: split, merge, redistribute, deepen or flatten the tree. */
module Btree {
  import opened Sequences
  import opened FileFormat
  import opened BtreeShape
  import opened BtreeGather
  import opened BtreeSiblings
  import opened BtreeResettled
  import opened BtreeLayout
  import opened BtreeAdopt
  import opened BtreeSettle
  import opened BtreeDeal
  import opened BtreeGroup
  import opened BtreeRoot
  import opened BtreeSound
  import opened BtreeRoom
  import opened BtreeTrack
  import opened BtreeIndex
  import opened BalanceSplit

  lemma AdoptedMore(m: Pager, kids: seq<Pgno>, q: Pgno, par: Pgno)
    ensures Adopted(Adopted(m, kids, par), [q], par) == Adopted(m, kids + [q], par)
  {}

  lemma LeftsSnoc(cells: seq<Cell>, i: nat)
    requires i < |cells|
    ensures Lefts(cells[..i + 1]) == Lefts(cells[..i]) + [cells[i].leftChild]
  {
    assert cells[..i + 1] == cells[..i] + [cells[i]];
    LeftsConcat(cells[..i], [cells[i]]);
    assert [cells[i]][1..] == [];
  }

  lemma GatherSnoc(m: Pager, divs: seq<Cell>, i: nat)
    requires i < |divs| && forall j | 0 <= j < |divs| :: divs[j].leftChild in m
    ensures GatherCells(m, divs[..i + 1]) == GatherCells(m, divs[..i]) + SiblingRow(m, divs[i])
  {
    assert divs[..i + 1] == divs[..i] + [divs[i]];
    GatherConcat(m, divs[..i], [divs[i]]);
    assert [divs[i]][1..] == [];
  }

  /** The row gathered from the first n siblings. */
  ghost function RowUpTo(m: Pager, divs: seq<Cell>, last: Pgno, n: nat): seq<Cell> {
    if n <= |divs| then GatherCells(m, divs[..n]) else Row(m, divs, last)
  }

  /** The row after one more sibling and the divider after it. */
  lemma RowGrows(m: Pager, page: MemPage, nxDiv: nat, pgnoOld: seq<Pgno>, i: nat)
    requires i + 1 < |pgnoOld| && nxDiv + |pgnoOld| <= |page.apCell| + 1
    requires forall j | 0 <= j < |pgnoOld| :: pgnoOld[j] == Child(page, nxDiv + j) && pgnoOld[j] in m
    ensures var divs, last := page.apCell[nxDiv..nxDiv + |pgnoOld| - 1], pgnoOld[|pgnoOld| - 1];
      RowUpTo(m, divs, last, i + 1)
        == RowUpTo(m, divs, last, i) + m[pgnoOld[i]].apCell + [Cell(m[pgnoOld[i]].rightChild, divs[i].item)]
  {
    DividersIn(m, page, nxDiv, pgnoOld);
    GatherSnoc(m, page.apCell[nxDiv..nxDiv + |pgnoOld| - 1], i);
  }

  ghost predicate Ascending(s: seq<Pgno>) {
    forall i, j | 0 <= i < j < |s| :: s[i] <= s[j]
  }

  /** There is always a file page number beyond the first page that no page in use has. */
  lemma {:induction false} SpareNumber(used: set<Pgno>)
    ensures exists q: Pgno :: q > 1 && q !in used
    decreases |used|
  {
    var top := Bound(used);
    assert top + 2 !in used;
  }

  /** No page number in the set is above the bound. */
  lemma {:induction false} Bound(used: set<Pgno>) returns (top: nat)
    ensures forall q | q in used :: q <= top
    decreases |used|
  {
    top := 0;
    if q :| q in used {
      top := Bound(used - {q});
      top := if q > top then q else top;
      forall r | r in used ensures r <= top {
        if r != q { assert r in used - {q}; }
      }
    }
  }

  lemma DividersIn(m: Pager, page: MemPage, nxDiv: nat, pgnoOld: seq<Pgno>)
    requires 1 <= |pgnoOld| && nxDiv + |pgnoOld| <= |page.apCell| + 1
    requires forall j | 0 <= j < |pgnoOld| :: pgnoOld[j] == Child(page, nxDiv + j) && pgnoOld[j] in m
    ensures var divs := page.apCell[nxDiv..nxDiv + |pgnoOld| - 1];
      (forall j | 0 <= j < |divs| :: divs[j].leftChild in m) && Lefts(divs) == pgnoOld[..|pgnoOld| - 1]
  {
    var divs := page.apCell[nxDiv..nxDiv + |pgnoOld| - 1];
    LeftsAt(divs);
    forall j | 0 <= j < |divs| ensures divs[j].leftChild in m && divs[j].leftChild == pgnoOld[j] {
      assert pgnoOld[j] == Child(page, nxDiv + j);
    }
  }

  lemma DropAt<T>(s: seq<T>, a: nat, b: nat)
    requires a <= b < |s|
    ensures var t := s[..a] + s[b..]; t[a] == s[b] && t[..a] + t[a + 1..] == s[..a] + s[b + 1..]
  {}

  lemma Unchanged(m: Pager, q: Pgno, a: nat)
    requires q in m && a <= |m[q].apCell|
    ensures m == m[q := m[q].(apCell := m[q].apCell[..a] + m[q].apCell[a..])]
  {
    assert m[q].apCell == m[q].apCell[..a] + m[q].apCell[a..];
  }

  lemma InsertDivider(l: Layout, i: nat)
    requires Ok(l) && i + 1 < |l.cnt|
    ensures var s := l.pre + Dividers(l, i) + l.post;
      s[..|l.pre| + i] + [Divider(l, i)] + s[|l.pre| + i..] == l.pre + Dividers(l, i + 1) + l.post
  {}

  /** When the new siblings have adopted their children, the parent's children are still those it was given. */
  lemma ParentsTurn(m: Pager, m1: Pager, l: Layout, c: Ctx)
    requires Ok(l) && !c.Top? && c.pg in m && m[c.pg] == NewParent(l, c) && m1 == AdoptedAll(m, l.news, |l.news|)
    ensures c.pg in m1 && Children(m1[c.pg]) == Children(NewParent(l, c))
  {
    AdoptedAllShape(m, l.news, |l.news|);
    assert OnlyParent(m, m1, c.pg);
  }

  /** The children of each page differ. */
  ghost predicate EachApart(m: Pager, news: seq<Pgno>) {
    forall i | 0 <= i < |news| :: ApartAt(m, news[i])
  }

  ghost predicate ApartAt(m: Pager, q: Pgno) {
    q in m && KidsApartFrom(Children(m[q]))
  }

  lemma StillApart(m: Pager, m1: Pager, news: seq<Pgno>, i: nat)
    requires EachApart(m, news) && i < |news| && AdoptedTo(m, m1, news, i)
    ensures ApartAt(m1, news[i])
  {
    assert ApartAt(m, news[i]);
    AdoptedAllShape(m, news, i);
    assert OnlyParent(m, m1, news[i]);
  }

  /** So it is on the pages of a group just dealt out, and on their parent. */
  lemma GroupApart(m: Pager, m1: Pager, l: Layout, g: Ctx, divs: seq<Cell>, last: Pgno, h: nat)
    requires h > 0 && !g.Top? && Planned(m, l, g, divs, last, h) && Dealt(m, m1, l, g, Members(divs, last))
    ensures EachApart(m1, l.news) && KidsApartFrom(Children(NewParent(l, g)))
  {
    var olds, m3 := Members(divs, last), AfterAdoptions(m1, l, g);
    GroupIs(m, g, l.pre, divs, last, h);
    GroupKidsApart(m, g, l.pre, olds, l.row, l.tail, h);
    forall i | 0 <= i < |l.news| ensures ApartAt(m1, l.news[i]) {
      assert LaidAt(m1, l, i);
      SliceApart(m1, l, i);
    }
    Halfway(m, m1, l, g, olds, h);
    ParentFate(m, m1, l, g, olds, h);
    RoundHolds(m, m1, l, g, divs, last, h);
    OnceParts(CtxBag(m3, g.up, h + 1), Bag(m3, g.pg, h + 1));
    TreeKidsApart(m3, g.pg, Par(g.up), h + 1);
  }

  /** What a round of dealing starts from. */
  lemma RoundFacts(m0: Pager, m: Pager, l: Layout, i: nat)
    requires Blank(m0, l) && i < |l.cnt| && RoundsDone(m0, m, l, i)
    ensures CutAt(|l.row|, l.cnt, i) && l.news[i] in m && m[l.news[i]] == MemPage([], 0, m0[l.news[i]].pParent)
    ensures l.news[i] != l.par && l.par in m && m[l.par] == ParentWith(m0, l, i)
  {
    assert CutAt(|l.row|, l.cnt, i);
    assert l.news[i] in l.news;
  }

  /** After i rounds the loop is at cell j, and at place nxDiv of the parent. */
  ghost predicate RoundsAt(m0: Pager, m: Pager, l: Layout, i: nat, j: nat, nxDiv: nat)
    requires Blank(m0, l) && i <= |l.cnt|
  {
    && RoundsDone(m0, m, l, i) && m.Keys == m0.Keys
    && (if i < |l.cnt| then j == Start(l.cnt, i) && nxDiv == |l.pre| + i else nxDiv == |l.pre| + i - 1)
  }

  /** Reused and new page numbers: distinct, real, and none that another page in use has. */
  ghost predicate Chosen(m: Pager, pgnoOld: seq<Pgno>, pgnoNew: seq<Pgno>) {
    Distinct(pgnoNew) && 0 !in pgnoNew && forall q | q in pgnoNew :: q in pgnoOld || q !in m
  }

  /** The pages chosen so far are blank, the other pages as they were; stale ones are old siblings not reused. */
  ghost predicate Blanked(m: Pager, m': Pager, pgnoNew: seq<Pgno>) {
    && (forall q | q in pgnoNew :: q in m' && m'[q] == MemPage([], 0, ParentOf(m, q)))
    && (forall q | q in m && q !in pgnoNew :: q in m' && m'[q] == m[q])
    && (forall q | q in m' :: q in m || q in pgnoNew)
  }

  ghost predicate Freed(m: Pager, m': Pager, gone: seq<Pgno>) {
    m' == map q | q in m && q !in gone :: m[q]
  }

  lemma {:induction false} NoDupOnce(s: seq<Pgno>)
    requires Distinct(s)
    ensures Once(multiset(s))
    decreases |s|
  {
    if s != [] {
      var t := s[1..];
      MultisetOfCons(s[0], t);
      assert s == [s[0]] + t;
      forall i, j | 0 <= i < j < |t| ensures t[i] != t[j] {
        assert s[i + 1] != s[j + 1];
      }
      NoDupOnce(t);
      assert s[0] !in t;
      forall q | q in multiset(s) ensures multiset(s)[q] == 1 {
        assert multiset(s)[q] == multiset{s[0]}[q] + multiset(t)[q];
        assert q in multiset(t) ==> q in t;
      }
    }
  }

  lemma SortedChosen(m: Pager, m': Pager, pgnoOld: seq<Pgno>, a: seq<Pgno>, b: seq<Pgno>)
    requires Chosen(m, pgnoOld, a) && multiset(a) == multiset(b)
    ensures Chosen(m, pgnoOld, b) && forall q :: q in b <==> q in a
  {
    NoDupOnce(a);
    KidsOnce(b);
    forall q ensures q in b <==> q in a {
      assert q in multiset(a) <==> q in multiset(b);
    }
  }

  /** The siblings' pages replaced by blank ones under the chosen numbers. */
  ghost predicate Replaced(m: Pager, m': Pager, pgnoOld: seq<Pgno>, pgnoNew: seq<Pgno>) {
    && (forall q | q in pgnoNew :: q in m' && m'[q] == MemPage([], 0, ParentOf(m, q)))
    && (forall q | q in m && q !in pgnoOld && q !in pgnoNew :: q in m' && m'[q] == m[q])
    && (forall q | q in m' :: q in pgnoNew || (q in m && q !in pgnoOld))
  }

  /** Pages taken in turn, then what was not reused freed. */
  lemma TakenAndFreed(m: Pager, m1: Pager, m2: Pager, olds: seq<Pgno>, news: seq<Pgno>)
    requires Distinct(olds) && Chosen(m, olds, news) && Blanked(m, m1, news)
    requires forall j | 0 <= j < |olds| && j < |news| :: news[j] == olds[j]
    requires forall j | |olds| <= j < |news| :: news[j] !in m
    requires forall j | 0 <= j < |olds| :: olds[j] in m
    requires Freed(m1, m2, if |news| < |olds| then olds[|news|..] else [])
    ensures Replaced(m, m2, olds, news)
  {
    if |news| < |olds| {
      var gone := olds[|news|..];
      forall q | q in news ensures q !in gone {}
      forall q | q in olds && q !in news ensures q in gone {
        var j :| 0 <= j < |olds| && olds[j] == q;
        assert j >= |news|;
        assert gone[j - |news|] == q;
      }
    } else {
      forall q | q in olds ensures q in news {
        var j :| 0 <= j < |olds| && olds[j] == q;
        assert news[j] == q;
      }
    }
  }

  /** The group's pages, as the code names them. */
  lemma GroupNames(m: Pager, g: Ctx, page: MemPage, nxDiv: nat, pgnoOld: seq<Pgno>, h: nat)
    requires h > 0 && 1 <= |pgnoOld| && nxDiv + |pgnoOld| <= |page.apCell| + 1
    requires !g.Top? && g.left == page.apCell[..nxDiv + |pgnoOld| - 1] && LooseAt(m, g, pgnoOld[|pgnoOld| - 1], h)
    requires forall j | 0 <= j < |pgnoOld| :: pgnoOld[j] == Child(page, nxDiv + j)
    ensures var pre, divs := page.apCell[..nxDiv], page.apCell[nxDiv..nxDiv + |pgnoOld| - 1];
      && g == WithLeft(g, pre + divs) && Members(divs, pgnoOld[|pgnoOld| - 1]) == pgnoOld
    ensures Distinct(pgnoOld) && 0 !in pgnoOld && g.pg !in pgnoOld && forall j | 0 <= j < |pgnoOld| :: pgnoOld[j] in m
  {
    GroupMembers(page, nxDiv, pgnoOld);
    WithLeftSame(g, page.apCell, nxDiv, |pgnoOld| - 1);
    MembersReal(m, g, page.apCell[..nxDiv], page.apCell[nxDiv..nxDiv + |pgnoOld| - 1], pgnoOld[|pgnoOld| - 1], h);
  }

  lemma WithLeftSame(g: Ctx, cells: seq<Cell>, a: nat, n: nat)
    requires !g.Top? && a + n <= |cells| && g.left == cells[..a + n]
    ensures g == WithLeft(g, cells[..a] + cells[a..a + n])
  {
    assert g.left == cells[..a] + cells[a..a + n];
  }

  lemma GroupMembers(page: MemPage, nxDiv: nat, pgnoOld: seq<Pgno>)
    requires 1 <= |pgnoOld| && nxDiv + |pgnoOld| <= |page.apCell| + 1
    requires forall j | 0 <= j < |pgnoOld| :: pgnoOld[j] == Child(page, nxDiv + j)
    ensures Members(page.apCell[nxDiv..nxDiv + |pgnoOld| - 1], pgnoOld[|pgnoOld| - 1]) == pgnoOld
  {
    var divs := page.apCell[nxDiv..nxDiv + |pgnoOld| - 1];
    LeftsAt(divs);
    forall j | 0 <= j < |divs| ensures Lefts(divs)[j] == pgnoOld[j] {
      assert pgnoOld[j] == Child(page, nxDiv + j);
    }
  }

  lemma MembersReal(m: Pager, g: Ctx, pre: seq<Cell>, divs: seq<Cell>, last: Pgno, h: nat)
    requires h > 0 && !g.Top? && LooseAt(m, WithLeft(g, pre + divs), last, h)
    ensures var olds := Members(divs, last);
      Distinct(olds) && 0 !in olds && g.pg !in olds && forall j | 0 <= j < |olds| :: olds[j] in m
  {
    var olds := Members(divs, last);
    GroupIs(m, g, pre, divs, last, h);
    var kb, around := KidsBag(m, Row(m, divs, last), Tail(m, last), h - 1), Around(m, g, pre, h);
    OldsOnce(g.pg, around, olds, kb);
    KidsOnce(olds);
    SiblingsTrees(m, g, pre, divs, last, h);
    forall j | 0 <= j < |olds| ensures olds[j] in m {
      if j < |olds| - 1 { LeftsOwned(m, divs, g.pg, h, olds[j]); }
    }
  }

  lemma OldsOnce(p: Pgno, around: multiset<Pgno>, olds: seq<Pgno>, kids: multiset<Pgno>)
    requires Once(multiset{p} + around + multiset(olds) + kids)
    ensures p !in olds && Once(multiset(olds))
  {
    var b := multiset{p} + around + multiset(olds) + kids;
    assert b[p] == 1 + around[p] + multiset(olds)[p] + kids[p];
    assert p in b;
    assert p in olds ==> p in multiset(olds);
    forall q | q in multiset(olds) ensures multiset(olds)[q] == 1 {
      assert b[q] == multiset{p}[q] + around[q] + multiset(olds)[q] + kids[q];
      assert q in b;
    }
  }

  /** The blank pages and the parent without dividers are what dealing starts from. */
  lemma ReadyToDeal(m: Pager, m0: Pager, l: Layout, g: Ctx, olds: seq<Pgno>, x: Pgno)
    requires !g.Top? && l.par == g.pg && g.pg in m && g.pg !in olds && Cuts(|l.row|, l.cnt) && |l.news| == |l.cnt|
    requires m[g.pg] == ParentPage(g, x) && l.post == (if g.InCell? then [Cell(x, g.item)] + g.rest else [])
    requires var mp := m[g.pg := m[g.pg].(apCell := l.pre + l.post)]; Chosen(mp, olds, l.news) && Replaced(mp, m0, olds, l.news)
    ensures Blank(m0, l) && Hole(m0, l, g, x) && Supplied(m, olds, l.news)
    ensures forall q | q in m && q != g.pg && q !in olds && q !in l.news :: q in m0 && m0[q] == m[q]
    ensures Renumbered(m, m0, olds, l.news) && BackAsBefore(m, m0, l.news)
  {
    NoDupOnce(l.news);
    assert g.pg !in l.news;
    forall i | 0 <= i < |l.news|
      ensures l.news[i] in m0 && m0[l.news[i]].apCell == [] && m0[l.news[i]].rightChild == 0
    {
      assert l.news[i] in l.news;
    }
  }

  /** The page looked for is a child of its parent, wherever the search stops. */
  lemma FoundChild(m: Pager, c: Ctx, pg: Pgno, h: nat, idx: nat)
    requires !c.Top? && CtxTree(m, c, pg, h) && idx <= |m[c.pg].apCell|
    requires forall i | 0 <= i < idx :: m[c.pg].apCell[i].leftChild != pg
    requires idx < |m[c.pg].apCell| ==> m[c.pg].apCell[idx].leftChild == pg
    ensures Child(m[c.pg], idx) == pg
  {
    if c.InCell? {
      assert m[c.pg].apCell[|c.left|].leftChild == pg;
    }
  }

  /** A page that can be balanced knows its parent, another page. */
  lemma KnowsParent(m: Pager, c: Ctx, pg: Pgno, h: nat)
    requires h > 0 && !c.Top? && Balanceable(m, c, pg, h)
    ensures CtxTree(m, c, pg, h) && c.pg != pg && pg != 0 && pg in m && m[pg].pParent == c.pg
  {
    assert c.pg in CtxBag(m, c, h) && pg in Bag(m, pg, h);
    OnceParts(CtxBag(m, c, h), Bag(m, pg, h));
  }

  /** Its number there is that of the cells to the left of it. */
  lemma HangsAt(m: Pager, c: Ctx, pg: Pgno, h: nat)
    requires !c.Top? && CtxTree(m, c, pg, h)
    ensures |c.left| <= |m[c.pg].apCell| && Child(m[c.pg], |c.left|) == pg
  {
    if c.InCell? {
      assert m[c.pg].apCell[|c.left|].leftChild == pg;
    }
  }

  /** The group of siblings around child idx. */
  ghost predicate GroupOf(m: Pager, c: Ctx, pg: Pgno, nxDiv: nat, pgnoOld: seq<Pgno>)
    requires !c.Top? && c.pg in m
  {
    && 1 <= |pgnoOld| && nxDiv + |pgnoOld| <= |m[c.pg].apCell| + 1 && pg in pgnoOld
    && forall j | 0 <= j < |pgnoOld| :: pgnoOld[j] == Child(m[c.pg], nxDiv + j)
  }

  /** The cells between and right after the pages of the group. */
  ghost predicate DividerIndices(idxDiv: seq<int>, nxDiv: nat, nOld: nat, nCell: nat) {
    |idxDiv| == nOld && forall j | 0 <= j < nOld && nxDiv + j < nCell :: idxDiv[j] == nxDiv + j
  }

  /** The row so far, the next sibling's cells, and the divider after them, as they are in the whole row. */
  lemma {:induction false} RowFrom(m: Pager, page: MemPage, nxDiv: nat, pgnoOld: seq<Pgno>, i: nat)
    requires i < |pgnoOld| && nxDiv + |pgnoOld| <= |page.apCell| + 1
    requires forall j | 0 <= j < |pgnoOld| :: pgnoOld[j] == Child(page, nxDiv + j) && pgnoOld[j] in m
    ensures var divs, last := page.apCell[nxDiv..nxDiv + |pgnoOld| - 1], pgnoOld[|pgnoOld| - 1];
      var r, cells, row := RowUpTo(m, divs, last, i), m[pgnoOld[i]].apCell, Row(m, divs, last);
      && r + cells <= row && (i + 1 < |pgnoOld| ==> |r| + |cells| < |row| && row[|r| + |cells|].item == divs[i].item)
      && (i + 1 == |pgnoOld| ==> row == r + cells)
      && (i + 1 < |pgnoOld| ==> |RowUpTo(m, divs, last, i + 1)| == |r| + |cells| + 1)
    decreases |pgnoOld| - i
  {
    var divs, last := page.apCell[nxDiv..nxDiv + |pgnoOld| - 1], pgnoOld[|pgnoOld| - 1];
    if i + 1 == |pgnoOld| {
      assert divs[..i] == divs;
    } else {
      RowGrows(m, page, nxDiv, pgnoOld, i);
      RowFrom(m, page, nxDiv, pgnoOld, i + 1);
      PrefixOf(RowUpTo(m, divs, last, i), m[pgnoOld[i]].apCell, Cell(m[pgnoOld[i]].rightChild, divs[i].item),
               m[pgnoOld[i + 1]].apCell, Row(m, divs, last));
    }
  }

  lemma PrefixOf(r: seq<Cell>, cells: seq<Cell>, d: Cell, more: seq<Cell>, row: seq<Cell>)
    requires r + cells + [d] + more <= row
    ensures r + cells <= row && |r| + |cells| < |row| && row[|r| + |cells|] == d
  {
    assert (r + cells + [d] + more)[|r| + |cells|] == d;
    assert (r + cells + [d] + more)[..|r| + |cells|] == r + cells;
  }

  /** The row of a group is not empty. */
  lemma RowHasCells(m: Pager, g: Ctx, page: MemPage, nxDiv: nat, pgnoOld: seq<Pgno>, pg: Pgno)
    requires 1 <= |pgnoOld| && nxDiv + |pgnoOld| <= |page.apCell| + 1 && GroupLinks(m, g, page, nxDiv, pgnoOld)
    requires forall j | 0 <= j < |pgnoOld| :: pgnoOld[j] == Child(page, nxDiv + j)
    requires pg in pgnoOld && (|pgnoOld| > 1 || m[pg].apCell != [])
    ensures Row(m, page.apCell[nxDiv..nxDiv + |pgnoOld| - 1], pgnoOld[|pgnoOld| - 1]) != []
  {
    DividersIn(m, page, nxDiv, pgnoOld);
  }

  /** A parent that held no cells gets a quarter of the bytes at most. */
  lemma DividersBytes(l: Layout)
    requires Ok(l) && (USABLE_SPACE + 1) * (|l.cnt| - 1) <= PageBytes(l.row)
    ensures PageBytes(Dividers(l, |l.cnt| - 1)) * 4 <= PageBytes(l.row)
  {
    var divs := Dividers(l, |l.cnt| - 1);
    SizesRange(divs);
    SumAtMost(Sizes(divs), 0, |divs|);
  }

  lemma EmptyParent(m: Pager, m1: Pager, l: Layout, g: Ctx, divs: seq<Cell>, last: Pgno, h: nat)
    requires h > 0 && !g.Top? && Planned(m, l, g, divs, last, h) && Dealt(m, m1, l, g, Members(divs, last))
    requires g.AtRight? && l.pre == [] && divs == []
    ensures g.pg in AfterAdoptions(m1, l, g) && AfterAdoptions(m1, l, g)[g.pg].apCell == Dividers(l, |l.cnt| - 1)
    ensures last in m && l.row == m[last].apCell
  {
    GroupIs(m, g, l.pre, divs, last, h);
    Halfway(m, m1, l, g, Members(divs, last), h);
    ParentFate(m, m1, l, g, Members(divs, last), h);
    assert l.pre + Dividers(l, |l.cnt| - 1) == Dividers(l, |l.cnt| - 1);
  }

  /** Whichever children of the parent are taken, the tree around the last of them is at hand. */
  ghost predicate AnyGroup(m: Pager, c: Ctx, h: nat, entries: seq<Payload>, b: multiset<Pgno>)
    requires h > 0 && !c.Top? && c.pg in m
  {
    forall last: nat | last <= |m[c.pg].apCell| :: LooseHolds(m, GroupCtx(m, c, last), Child(m[c.pg], last), h, entries, b)
  }

  lemma AnyGroupHolds(m: Pager, c: Ctx, pg: Pgno, h: nat, entries: seq<Payload>, b: multiset<Pgno>)
    requires h > 0 && !c.Top? && c.pg in m && Balanceable(m, c, pg, h)
    requires Entries(m, c, pg, h) == entries && Pages(m, c, pg, h) == b
    ensures AnyGroup(m, c, h, entries, b)
  {
    forall last: nat | last <= |m[c.pg].apCell|
      ensures LooseHolds(m, GroupCtx(m, c, last), Child(m[c.pg], last), h, entries, b)
    {
      GroupHolds(m, c, pg, h, last, entries, b);
    }
  }

  lemma OneGroup(m: Pager, c: Ctx, pg: Pgno, nxDiv: nat, pgnoOld: seq<Pgno>, h: nat, g: Ctx,
                 entries: seq<Payload>, b: multiset<Pgno>)
    requires h > 0 && !c.Top? && c.pg in m && AnyGroup(m, c, h, entries, b) && GroupOf(m, c, pg, nxDiv, pgnoOld)
    requires g == GroupCtx(m, c, nxDiv + |pgnoOld| - 1)
    ensures LooseHolds(m, g, pgnoOld[|pgnoOld| - 1], h, entries, b)
  {
    var last := nxDiv + |pgnoOld| - 1;
    assert LooseHolds(m, GroupCtx(m, c, last), Child(m[c.pg], last), h, entries, b);
  }

  lemma HeldIsLinked(m: Pager, c: Ctx, pg: Pgno, nxDiv: nat, pgnoOld: seq<Pgno>, h: nat, g: Ctx,
                     entries: seq<Payload>, b: multiset<Pgno>)
    requires h > 0 && !c.Top? && c.pg in m && GroupOf(m, c, pg, nxDiv, pgnoOld)
    requires g == GroupCtx(m, c, nxDiv + |pgnoOld| - 1) && LooseHolds(m, g, pgnoOld[|pgnoOld| - 1], h, entries, b)
    ensures GroupLinks(m, g, m[c.pg], nxDiv, pgnoOld)
  {
    GroupIsLinked(m, g, m[c.pg], nxDiv, pgnoOld, h);
  }

  ghost predicate GroupLinks(m: Pager, g: Ctx, page: MemPage, nxDiv: nat, pgnoOld: seq<Pgno>)
    requires 1 <= |pgnoOld| && nxDiv + |pgnoOld| <= |page.apCell| + 1
  {
    var n := |pgnoOld| - 1;
    && !g.Top? && page == ParentPage(g, pgnoOld[n])
    && page.apCell[nxDiv + n..] == (if g.InCell? then [Cell(pgnoOld[n], g.item)] + g.rest else [])
    && g == WithLeft(g, page.apCell[..nxDiv] + page.apCell[nxDiv..nxDiv + n])
    && Members(page.apCell[nxDiv..nxDiv + n], pgnoOld[n]) == pgnoOld
    && Distinct(pgnoOld) && 0 !in pgnoOld && g.pg !in pgnoOld && forall j | 0 <= j < |pgnoOld| :: pgnoOld[j] in m
  }

  lemma GroupIsLinked(m: Pager, g: Ctx, page: MemPage, nxDiv: nat, pgnoOld: seq<Pgno>, h: nat)
    requires h > 0 && 1 <= |pgnoOld| && nxDiv + |pgnoOld| <= |page.apCell| + 1
    requires !g.Top? && g == ChildCtx(g.up, g.pg, page, nxDiv + |pgnoOld| - 1)
    requires forall j | 0 <= j < |pgnoOld| :: pgnoOld[j] == Child(page, nxDiv + j)
    requires LooseAt(m, g, pgnoOld[|pgnoOld| - 1], h) && m[g.pg] == page
    ensures GroupLinks(m, g, page, nxDiv, pgnoOld)
  {
    GroupNames(m, g, page, nxDiv, pgnoOld, h);
    LinkToLast(m, g, page, nxDiv + |pgnoOld| - 1, pgnoOld[|pgnoOld| - 1], h);
  }

  lemma LinkToLast(m: Pager, g: Ctx, page: MemPage, j: nat, last: Pgno, h: nat)
    requires j <= |page.apCell| && !g.Top? && g == ChildCtx(g.up, g.pg, page, j) && last == Child(page, j)
    requires CtxTree(m, g, last, h) && m[g.pg] == page
    ensures page.apCell[j..] == (if g.InCell? then [Cell(last, g.item)] + g.rest else [])
  {}

  /** A group in a tree with one overfull page needs one page more at most. */
  lemma LinkedRoom(m: Pager, g: Ctx, page: MemPage, nxDiv: nat, pgnoOld: seq<Pgno>, h: nat,
                   entries: seq<Payload>, b: multiset<Pgno>, pg: Pgno, root: Pgno)
    requires h > 0 && 1 <= |pgnoOld| <= NB && nxDiv + |pgnoOld| <= |page.apCell| + 1 && GroupLinks(m, g, page, nxDiv, pgnoOld)
    requires LooseHolds(m, g, pgnoOld[|pgnoOld| - 1], h, entries, b) && SoundBut(m, b, {pg, g.pg}, root)
    requires pg in m && PageBytes(m[pg].apCell) <= OVERFULL
    ensures Room(Sizes(Row(m, page.apCell[nxDiv..nxDiv + |pgnoOld| - 1], pgnoOld[|pgnoOld| - 1])), |pgnoOld| + 1)
  {
    var n := |pgnoOld| - 1;
    var pre, divs, last := page.apCell[..nxDiv], page.apCell[nxDiv..nxDiv + n], pgnoOld[n];
    GroupCrowded(m, g, pre, divs, last, h, b, pg, root);
    GroupRoom(m, divs, last, pg);
  }

  /** What the round leaves. */
  lemma RoundEnds(m: Pager, m1: Pager, m3: Pager, l: Layout, g: Ctx, divs: seq<Cell>, last: Pgno, h: nat,
                  entries: seq<Payload>, b: multiset<Pgno>, pg: Pgno, root: Pgno)
    requires h > 0 && !g.Top? && Planned(m, l, g, divs, last, h) && g == WithLeft(g, l.pre + divs)
    requires Entries(m, g, last, h) == entries && Pages(m, g, last, h) == b
    requires Dealt(m, m1, l, g, Members(divs, last)) && Renumbered(m, m1, Members(divs, last), l.news)
    requires Fits(Sizes(l.row), l.cnt) && pg in Members(divs, last) && SoundBut(m, b, {pg, g.pg}, root)
    requires m3 == AfterAdoptions(m1, l, g)
    ensures Holds(m3, g.up, g.pg, h + 1, entries, NewBag(m, l, g, divs, last, h))
    ensures SoundBut(m3, NewBag(m, l, g, divs, last, h), {g.pg}, root)
    ensures Conserved(m, b, m3, NewBag(m, l, g, divs, last, h))
  {
    RoundHolds(m, m1, l, g, divs, last, h);
    RoundIsSound(m, m1, l, g, divs, last, h, pg, root);
    RoundIsConservative(m, m1, l, g, divs, last, h);
  }

  /** The round keeps the cursor on its entry. */
  lemma CursorSettled(m: Pager, m1: Pager, m3: Pager, l: Layout, g: Ctx, divs: seq<Cell>, last: Pgno, h: nat, b: multiset<Pgno>,
                      nxDiv: nat, pgnoOld: seq<Pgno>, k: int, cur0: Cur, cur: Cur, idxDivLast: int, x: Goal)
    requires h > 0 && !g.Top? && Planned(m, l, g, divs, last, h) && g == WithLeft(g, l.pre + divs) && g.pg in m
    requires Pages(m, g, last, h) == b && Dealt(m, m1, l, g, Members(divs, last)) && m3 == AfterAdoptions(m1, l, g)
    requires pgnoOld == Members(divs, last) && CurOn(m, b, cur0, x) && OffSpine(g, cur0)
    requires cur0.On? ==> RowIndex(m, g.pg, nxDiv, pgnoOld, l.row, cur0, k)
    requires cur == BalancedCursor(l, k, cur0, idxDivLast, |pgnoOld|)
    ensures CurOn(m3, NewBag(m, l, g, divs, last, h), cur, x) && OffSpine(g.up, cur)
  {
    if cur0.On? { BalancedIsRound(m, l, nxDiv, pgnoOld, k, cur0, idxDivLast, x.item); }
    GroupParts(m, g, l.pre, divs, last, h);
    WholeIsOthers(m, g, l.pre, divs, last, h);
    RoundTracks(m, m1, m3, l, g, divs, last, h, k, cur0, cur, x);
  }

  lemma ParentShrinks(m: Pager, m1: Pager, m3: Pager, l: Layout, g: Ctx, divs: seq<Cell>, last: Pgno, h: nat)
    requires h > 0 && !g.Top? && Planned(m, l, g, divs, last, h) && Dealt(m, m1, l, g, Members(divs, last))
    requires g.AtRight? && l.pre == [] && divs == []
    requires (USABLE_SPACE + 1) * (|l.cnt| - 1) <= PageBytes(l.row)
    requires m3 == AfterAdoptions(m1, l, g)
    ensures g.pg in m3 && last in m && PageBytes(m3[g.pg].apCell) * 4 <= PageBytes(m[last].apCell)
  {
    DividersBytes(l);
    EmptyParent(m, m1, l, g, divs, last, h);
  }

  /** Below a parent without cells the group is one page. */
  lemma LoneSibling(m: Pager, g: Ctx, page: MemPage, nxDiv: nat, pgnoOld: seq<Pgno>, pg: Pgno)
    requires 1 <= |pgnoOld| && nxDiv + |pgnoOld| <= |page.apCell| + 1 && page.apCell == []
    requires GroupLinks(m, g, page, nxDiv, pgnoOld) && pg in pgnoOld
    ensures nxDiv == 0 && |pgnoOld| == 1 && pg == pgnoOld[0] && g.AtRight?
    ensures page.apCell[..nxDiv] == [] && page.apCell[nxDiv..nxDiv + |pgnoOld| - 1] == []
  {}

  /** The siblings found make a plan. */
  lemma GroupPlanned(m: Pager, l: Layout, g: Ctx, nxDiv: nat, pgnoOld: seq<Pgno>, h: nat)
    requires h > 0 && !g.Top? && g.pg in m && l.par == g.pg && Ok(l)
    requires 1 <= |pgnoOld| && nxDiv + |pgnoOld| <= |m[g.pg].apCell| + 1
    requires LooseAt(m, g, pgnoOld[|pgnoOld| - 1], h) && GroupLinks(m, g, m[g.pg], nxDiv, pgnoOld)
    requires var page, n := m[g.pg], |pgnoOld| - 1;
      l.pre == page.apCell[..nxDiv] && l.row == Row(m, page.apCell[nxDiv..nxDiv + n], pgnoOld[n]) && l.tail == Tail(m, pgnoOld[n])
    requires Supplied(m, pgnoOld, l.news) && 0 !in l.news
    ensures Planned(m, l, g, m[g.pg].apCell[nxDiv..nxDiv + |pgnoOld| - 1], pgnoOld[|pgnoOld| - 1], h)
  {}

  lemma ConservedTwice(m: Pager, b: multiset<Pgno>, m1: Pager, b1: multiset<Pgno>, m2: Pager, b2: multiset<Pgno>)
    requires Conserved(m, b, m1, b1) && Conserved(m1, b1, m2, b2)
    ensures Conserved(m, b, m2, b2)
  {}

  /** A parent above a page has cells, unless its page is in work too. */
  lemma ParentHasCells(m: Pager, c: Ctx, pg: Pgno, h: nat, b: multiset<Pgno>, root: Pgno)
    requires h > 0 && Holds(m, c, pg, h, Entries(m, c, pg, h), b) && !c.Top? && SoundBut(m, b, {pg}, root)
    ensures c.pg in m && c.pg in b && m[c.pg].apCell != [] && c.pg != pg && PageBytes(m[c.pg].apCell) <= USABLE_SPACE
  {
    var bag := CtxBag(m, c, h);
    assert c.pg in bag;
    assert b[c.pg] == bag[c.pg] + Bag(m, pg, h)[c.pg];
    assert b[c.pg] == 1;
    assert pg in Bag(m, pg, h);
    assert SoundAt(m, c.pg, root);
  }

  /** A tree in which page pg alone may be overfull, within limits, or short of cells. */
  ghost predicate InWork(m: Pager, c: Ctx, pg: Pgno, h: nat, entries: seq<Payload>, b: multiset<Pgno>) {
    h > 0 && Holds(m, c, pg, h, entries, b) && SoundBut(m, b, {pg}, Root(c, pg)) && pg in m && Crowded(m[pg].apCell)
  }

  /** The same entries in a tree, root page unchanged, all of whose pages are sound. */
  ghost predicate Balanced(m: Pager, root: Pgno, t: nat, entries: seq<Payload>, b: multiset<Pgno>) {
    Holds(m, Top, root, t, entries, b) && Sound(m, b, root)
  }

  /** The tree, its pages and the cursor once the root's cells are one level down. */
  lemma DeepRoot(m: Pager, m1: Pager, root: Pgno, child: Pgno, h: nat, entries: seq<Payload>, b: multiset<Pgno>,
                 cur0: Cur, cur: Cur, x: Goal)
    requires h > 0 && root in m && Holds(m, Top, root, h, entries, b) && SoundBut(m, b, {root}, root)
    requires child !in m && child != 0 && m1 == Deepened(m, root, child)
    requires CurOn(m, b, cur0, x) && cur == if cur0.On? && cur0.pPage == root then On(child, cur0.idx) else cur0
    ensures var c := AtRight(Top, root, []);
      && Balanceable(m1, c, child, h) && Entries(m1, c, child, h) == entries && Pages(m1, c, child, h) == b + multiset{child}
      && OffSpine(c, cur)
    ensures SoundBut(m1, b + multiset{child}, {child, root}, root) && Conserved(m, b, m1, b + multiset{child})
    ensures CurOn(m1, b + multiset{child}, cur, x)
  {
    assert root in b by { BelowRoot(m, root, h); }
    DeepenedHolds(m, root, child, h);
    DeepenedSound(m, root, child, b);
    DeepenedConserves(m, root, child, b);
    DeepenedCursor(m, root, child, b, cur0, cur, x);
  }

  /** The only child of a root without cells, and its children. */
  lemma LoneChild(m: Pager, root: Pgno, h: nat)
    requires h > 0 && At(m, Top, root, h) && m[root].apCell == [] && m[root].rightChild != 0
    ensures m[root].rightChild in m && KidsApartFrom(Children(m[m[root].rightChild])) && m[root].pParent == 0
  {
    var child := m[root].rightChild;
    EmptyRoot(m, root, h);
    assert CtxBag(m, Top, h) + Bag(m, root, h) == multiset{root} + multiset{} + Bag(m, child, h - 1);
    OnceParts(multiset{root} + multiset{}, Bag(m, child, h - 1));
    TreeKidsApart(m, child, root, h - 1);
  }

  /** The tree, its pages and the cursor once the root has taken over its only child. */
  lemma FlatRoot(m: Pager, m1: Pager, root: Pgno, child: Pgno, h: nat, entries: seq<Payload>, b: multiset<Pgno>,
                 cur0: Cur, cur: Cur, x: Goal)
    returns (bag: multiset<Pgno>)
    requires h > 0 && root in m && Holds(m, Top, root, h, entries, b) && SoundBut(m, b, {root}, root)
    requires m[root].apCell == [] && child == m[root].rightChild != 0 && child in m && m1 == Flattened(m, root, child)
    requires CurOn(m, b, cur0, x) && cur == if cur0.On? && cur0.pPage == child then On(root, cur0.idx) else cur0
    ensures h > 1 && Holds(m1, Top, root, h - 1, entries, bag) && Sound(m1, bag, root) && Conserved(m, b, m1, bag)
    ensures CurOn(m1, bag, cur, x)
  {
    EmptyRoot(m, root, h);
    EmptyRootPages(m, root, h);
    EmptyRootEntries(m, root, h);
    bag := multiset{root} + KidsBag(m, m[child].apCell, m[child].rightChild, h - 2);
    OldsOnceHere(root, child, KidsBag(m, m[child].apCell, m[child].rightChild, h - 2));
    FlattenedHolds(m, root, child, h);
    FlattenedSound(m, root, child, h);
    FlattenedConserves(m, root, child, h);
    FlattenedCursor(m, root, child, h, b, cur0, cur, x);
  }

  /** A page just zeroed is a balanced tree without entries. */
  lemma EmptyTable(m: Pager, root: Pgno)
    requires root != 0 && root in m && m[root] == MemPage([], 0, 0)
    ensures Balanced(m, root, 1, [], multiset{root})
  {}

  /** Once the page in work is sound too, the tree is balanced. */
  lemma NothingToDo(m: Pager, c: Ctx, pg: Pgno, h: nat, t: nat, entries: seq<Payload>, b: multiset<Pgno>, root: Pgno)
    requires InWork(m, c, pg, h, entries, b) && root == Root(c, pg) && SoundAt(m, pg, root) && t == h + Depth(c)
    ensures Balanced(m, root, t, entries, b) && Conserved(m, b, m, b)
  {
    Climb(m, c, pg, h, t, entries, b);
    SoundAll(m, b, pg, root);
  }

  lemma FullEnough(m: Pager, c: Ctx, pg: Pgno, h: nat, entries: seq<Payload>, b: multiset<Pgno>, root: Pgno) returns (t: nat)
    requires InWork(m, c, pg, h, entries, b) && PageBytes(m[pg].apCell) <= USABLE_SPACE && |m[pg].apCell| >= 2
    requires root == Root(c, pg)
    ensures Balanced(m, root, t, entries, b) && Conserved(m, b, m, b)
  {
    t := h + Depth(c);
    NothingToDo(m, c, pg, h, t, entries, b, root);
  }

  lemma SoundAll(m: Pager, b: multiset<Pgno>, pg: Pgno, root: Pgno)
    requires SoundBut(m, b, {pg}, root) && SoundAt(m, pg, root)
    ensures Sound(m, b, root)
  {
    forall q | q in b ensures SoundAt(m, q, root) {}
  }

  /** Only a root has no parent. */
  lemma NoParent(m: Pager, c: Ctx, pg: Pgno, h: nat)
    requires h > 0 && At(m, c, pg, h)
    ensures pg in m && m[pg].pParent == Par(c) && (m[pg].pParent == 0 <==> c.Top?)
  {}

  lemma MayBalance(m: Pager, c: Ctx, pg: Pgno, h: nat, entries: seq<Payload>, b: multiset<Pgno>)
    requires InWork(m, c, pg, h, entries, b) && !c.Top?
    ensures Balanceable(m, c, pg, h) && c.pg in m && m[c.pg].apCell != [] && PageBytes(m[c.pg].apCell) <= USABLE_SPACE
    ensures Entries(m, c, pg, h) == entries && Pages(m, c, pg, h) == b && SoundBut(m, b, {pg, c.pg}, Root(c, pg))
  {
    AtIsLoose(m, c, pg, h);
    ParentHasCells(m, c, pg, h, b, Root(c, pg));
  }

  lemma BytesBelow(cells: seq<Cell>)
    ensures 0 <= PageBytes(cells)
  {
    SizesRange(cells);
    SumBounds(Sizes(cells), 0, |cells|);
  }

  class Btree {
    var pages: Pager
    /** Each page's own place among its parent's children, as it was last told. */
    var idxParent: Places
    /** The pages whose cells have moved since their children were last told. */
    var idxShift: set<Pgno>

    /** The page's parent pointer and its place there, if it is a page, are set. */
    method ReparentPage(pgno: Pgno, pNewParent: Pgno, idx: nat)
      modifies this`pages, this`idxParent
      ensures pages == Adopted(old(pages), [pgno], pNewParent) && idxParent == Noted(old(pages), old(idxParent), pgno, idx)
    {
      if pgno == 0 { return; }
      if pgno in pages {
        pages := pages[pgno := pages[pgno].(pParent := pNewParent)];
        idxParent := idxParent[pgno := idx];
      }
    }

    /** Every child of page pg gets pg as its parent, and is told its place; what the other pages remember stays right. */
    method ReparentChildPages(pg: Pgno, ghost work: set<Pgno>)
      requires pg in pages && pg in work && KidsApartFrom(Children(pages[pg])) && Indexed(pages, idxParent, work)
      modifies this
      ensures pages == Adopted(old(pages), Children(old(pages)[pg]), pg) && Indexed(pages, idxParent, work - {pg})
    {
      var page := pages[pg];
      var i := 0;
      while i < |page.apCell|
        invariant 0 <= i <= |page.apCell|
        invariant pages == Adopted(old(pages), Lefts(page.apCell[..i]), pg)
        invariant Told(pages, idxParent, pg, page, i) && Indexed(pages, idxParent, work)
      {
        LeftsSnoc(page.apCell, i);
        AdoptedMore(old(pages), Lefts(page.apCell[..i]), page.apCell[i].leftChild, pg);
        OneTold(pages, idxParent, pg, page, i, work);
        ReparentPage(page.apCell[i].leftChild, pg, i);
        i := i + 1;
      }
      assert page.apCell[..i] == page.apCell;
      AdoptedMore(old(pages), Lefts(page.apCell), page.rightChild, pg);
      OneTold(pages, idxParent, pg, page, i, work);
      ReparentPage(page.rightChild, pg, i);
      idxShift := idxShift - {pg};
      TellingEnds(pages, idxParent, pg, page, i + 1, work);
    }

    /** The place of page pg in its parent: remembered, unless the parent's cells have moved since; then looked for. */
    method IndexInParent(par: Pgno, pg: Pgno, ghost c: Ctx, ghost h: nat, ghost work: set<Pgno>) returns (idx: nat)
      requires !c.Top? && par == c.pg && par in pages && CtxTree(pages, c, pg, h)
      requires pg in pages && pg != 0 && pages[pg].pParent == par && Indexed(pages, idxParent, work) && par !in work
      ensures idx == |c.left| <= |pages[par].apCell| && Child(pages[par], idx) == pg
      ensures pg in idxParent && idx == idxParent[pg]
    {
      HangsAt(pages, c, pg, h);
      RememberedIsFound(pages, idxParent, work, par, pg, |c.left|);
      if par in idxShift {
        idx := FindChild(par, pg);
        FoundChild(pages, c, pg, h, idx);
        RememberedIsFound(pages, idxParent, work, par, pg, idx);
      } else {
        idx := idxParent[pg];
      }
    }

    /** The index of page pg among the children of page par. */
    method FindChild(par: Pgno, pg: Pgno) returns (idx: nat)
      requires par in pages
      ensures idx <= |pages[par].apCell|
      ensures forall i | 0 <= i < idx :: pages[par].apCell[i].leftChild != pg
      ensures idx < |pages[par].apCell| ==> pages[par].apCell[idx].leftChild == pg
    {
      idx := 0;
      while idx < |pages[par].apCell|
        invariant 0 <= idx <= |pages[par].apCell|
        invariant forall i | 0 <= i < idx :: pages[par].apCell[i].leftChild != pg
      {
        if pages[par].apCell[idx].leftChild == pg { break; }
        idx := idx + 1;
      }
    }

    /**
     * Up to NB neighbouring children of page par, child idx among them, and the indices of the parent's cells next to
     * them; there is none next to the last child, and what the array holds there is left open. The siblings are told
     * their places, which they remember already.
     */
    method FindSiblings(par: Pgno, idx: nat) returns (nxDiv: nat, pgnoOld: seq<Pgno>, idxDiv: seq<int>)
      requires par in pages && idx <= |pages[par].apCell| && AllTold(pages, idxParent, par) && Family(pages, par)
      modifies this`idxParent
      ensures idxParent == old(idxParent)
      ensures 1 <= |pgnoOld| <= NB && nxDiv <= idx < nxDiv + |pgnoOld| <= |pages[par].apCell| + 1
      ensures forall j | 0 <= j < |pgnoOld| :: pgnoOld[j] == Child(pages[par], nxDiv + j)
      ensures |pages[par].apCell| > 0 ==> |pgnoOld| > 1
      ensures DividerIndices(idxDiv, nxDiv, |pgnoOld|, |pages[par].apCell|)
    {
      var nCell := |pages[par].apCell|;
      var first: int := idx - 1;
      if first + NB > nCell { first := nCell - NB + 1; }
      if first < 0 { first := 0; }
      nxDiv := first;
      pgnoOld, idxDiv := [], [];
      var i, k := 0, nxDiv;
      while i < NB
        invariant 0 <= i <= NB && k == nxDiv + i && |pgnoOld| == i && k <= nCell + 1
        invariant DividerIndices(idxDiv, nxDiv, i, nCell)
        invariant forall j | 0 <= j < i :: pgnoOld[j] == Child(pages[par], nxDiv + j)
        invariant idxParent == old(idxParent)
      {
        if k <= nCell { ToldAgain(pages, idxParent, par, k); }
        if k < nCell {
          idxDiv := idxDiv + [k];
          pgnoOld := pgnoOld + [pages[par].apCell[k].leftChild];
        } else if k == nCell {
          var unset: int := *;
          idxDiv := idxDiv + [unset];
          pgnoOld := pgnoOld + [pages[par].rightChild];
        } else {
          break;
        }
        idxParent := idxParent[pgnoOld[i] := k];
        i, k := i + 1, k + 1;
      }
    }

    /** The cells of page pg are appended to the row. */
    method LoadPage(pg: Pgno, cells0: seq<Cell>, sizes0: seq<int>) returns (apCell: seq<Cell>, szCell: seq<int>)
      requires pg in pages && sizes0 == Sizes(cells0)
      ensures apCell == cells0 + pages[pg].apCell && szCell == Sizes(apCell)
    {
      apCell, szCell := cells0, sizes0;
      var j := 0;
      while j < |pages[pg].apCell|
        invariant 0 <= j <= |pages[pg].apCell|
        invariant apCell == cells0 + pages[pg].apCell[..j] && szCell == Sizes(apCell)
      {
        apCell := apCell + [pages[pg].apCell[j]];
        szCell := szCell + [CellSize(pages[pg].apCell[j].item)];
        j := j + 1;
      }
      assert pages[pg].apCell[..j] == pages[pg].apCell;
    }

    method DropCell(pg: Pgno, idx: nat)
      requires pg in pages && idx < |pages[pg].apCell|
      modifies this`pages, this`idxShift
      ensures var cells := old(pages)[pg].apCell;
        pages == old(pages)[pg := old(pages)[pg].(apCell := cells[..idx] + cells[idx + 1..])]
    {
      pages := pages[pg := pages[pg].(apCell := pages[pg].apCell[..idx] + pages[pg].apCell[idx + 1..])];
      idxShift := idxShift + {pg};
    }

    method InsertCell(pg: Pgno, idx: nat, cell: Cell)
      requires pg in pages && idx <= |pages[pg].apCell|
      modifies this`pages, this`idxShift
      ensures var cells := old(pages)[pg].apCell;
        pages == old(pages)[pg := old(pages)[pg].(apCell := cells[..idx] + [cell] + cells[idx..])]
    {
      pages := pages[pg := pages[pg].(apCell := pages[pg].apCell[..idx] + [cell] + pages[pg].apCell[idx..])];
      idxShift := idxShift + {pg};
    }

    /** The place in the row of the cell that the cursor is on, or one behind the row. */
    method CursorIndex(cur: Cur, par: Pgno, nxDiv: nat, pgnoOld: seq<Pgno>, idxDiv: seq<int>) returns (iCur: int)
      requires cur.On? && par in pages && 1 <= |pgnoOld| && nxDiv + |pgnoOld| <= |pages[par].apCell| + 1 && par !in pgnoOld
      requires forall j | 0 <= j < |pgnoOld| :: pgnoOld[j] == Child(pages[par], nxDiv + j) && pgnoOld[j] in pages
      requires DividerIndices(idxDiv, nxDiv, |pgnoOld|, |pages[par].apCell|)
      ensures var divs, last := pages[par].apCell[nxDiv..nxDiv + |pgnoOld| - 1], pgnoOld[|pgnoOld| - 1];
        RowIndex(pages, par, nxDiv, pgnoOld, Row(pages, divs, last), cur, iCur)
    {
      ghost var divs, last := pages[par].apCell[nxDiv..nxDiv + |pgnoOld| - 1], pgnoOld[|pgnoOld| - 1];
      ghost var row := Row(pages, divs, last);
      iCur := 0;
      var i := 0;
      while i < |pgnoOld|
        invariant 0 <= i <= |pgnoOld| && cur.pPage !in pgnoOld[..i] && !(cur.pPage == par && nxDiv <= cur.idx < nxDiv + i && i < |pgnoOld|)
        invariant i < |pgnoOld| ==> iCur == |RowUpTo(pages, divs, last, i)|
        invariant i == |pgnoOld| ==> iCur == |row| + 1 && !(cur.pPage == par && nxDiv <= cur.idx < nxDiv + i - 1)
      {
        RowFrom(pages, pages[par], nxDiv, pgnoOld, i);
        if cur.pPage == pgnoOld[i] {
          iCur := iCur + cur.idx;
          return;
        }
        iCur := iCur + |pages[pgnoOld[i]].apCell|;
        if i < |pgnoOld| - 1 && cur.pPage == par && cur.idx == idxDiv[i] {
          return;
        }
        iCur := iCur + 1;
        i := i + 1;
      }
    }

    /** All cells of the siblings and the dividers between them; the dividers leave the parent. */
    method LoadCells(par: Pgno, nxDiv: nat, pgnoOld: seq<Pgno>) returns (apCell: seq<Cell>, szCell: seq<int>)
      requires par in pages && 1 <= |pgnoOld| && nxDiv + |pgnoOld| <= |pages[par].apCell| + 1
      requires forall j | 0 <= j < |pgnoOld| ::
                 pgnoOld[j] == Child(pages[par], nxDiv + j) && pgnoOld[j] in pages && pgnoOld[j] != par
      modifies this`pages, this`idxShift
      ensures var m, cells, n := old(pages), old(pages)[par].apCell, |pgnoOld| - 1;
        && apCell == Row(m, cells[nxDiv..nxDiv + n], pgnoOld[n]) && szCell == Sizes(apCell)
        && pages == m[par := m[par].(apCell := cells[..nxDiv] + cells[nxDiv + n..])]
    {
      ghost var m, cells, n := pages, pages[par].apCell, |pgnoOld| - 1;
      ghost var divs := cells[nxDiv..nxDiv + n];
      apCell, szCell := [], [];
      Unchanged(m, par, nxDiv);
      var i := 0;
      while i < |pgnoOld|
        invariant 0 <= i <= |pgnoOld|
        invariant apCell == RowUpTo(m, divs, pgnoOld[n], i) && szCell == Sizes(apCell)
        invariant pages == m[par := m[par].(apCell := cells[..nxDiv] + cells[nxDiv + if i < n then i else n..])]
      {
        apCell, szCell := LoadSibling(par, nxDiv, pgnoOld, i, apCell, szCell, m, cells);
        i := i + 1;
      }
    }

    /** One round: a sibling's cells, and unless it is the last the divider after it. */
    method LoadSibling(par: Pgno, nxDiv: nat, pgnoOld: seq<Pgno>, i: nat, cells0: seq<Cell>, sizes0: seq<int>,
                       ghost m: Pager, ghost cells: seq<Cell>)
      returns (apCell: seq<Cell>, szCell: seq<int>)
      requires par in m && m[par].apCell == cells && i < |pgnoOld| && nxDiv + |pgnoOld| <= |cells| + 1
      requires forall j | 0 <= j < |pgnoOld| ::
                 pgnoOld[j] == Child(m[par], nxDiv + j) && pgnoOld[j] in m && pgnoOld[j] != par
      requires pages == m[par := m[par].(apCell := cells[..nxDiv] + cells[nxDiv + i..])] && sizes0 == Sizes(cells0)
      requires cells0 == RowUpTo(m, cells[nxDiv..nxDiv + |pgnoOld| - 1], pgnoOld[|pgnoOld| - 1], i)
      modifies this`pages, this`idxShift
      ensures apCell == RowUpTo(m, cells[nxDiv..nxDiv + |pgnoOld| - 1], pgnoOld[|pgnoOld| - 1], i + 1)
      ensures szCell == Sizes(apCell)
      ensures var k := if i + 1 < |pgnoOld| then i + 1 else |pgnoOld| - 1;
        pages == m[par := m[par].(apCell := cells[..nxDiv] + cells[nxDiv + k..])]
    {
      ghost var divs := cells[nxDiv..nxDiv + |pgnoOld| - 1];
      apCell, szCell := LoadPage(pgnoOld[i], cells0, sizes0);
      if i < |pgnoOld| - 1 {
        var div := pages[par].apCell[nxDiv];
        DropAt(cells, nxDiv, nxDiv + i);
        assert div == divs[i] && div.leftChild == pgnoOld[i];
        DropCell(par, nxDiv);
        apCell := apCell + [Cell(pages[pgnoOld[i]].rightChild, div.item)];
        szCell := szCell + [CellSize(div.item)];
        RowGrows(m, m[par], nxDiv, pgnoOld, i);
      } else {
        assert divs[..i] == divs;
      }
    }

    /** Some page number beyond the first page that is in no use; which one is left open. */
    method AllocatePage() returns (pgno: Pgno)
      modifies this`pages, this`idxShift
      ensures pgno > 1 && pgno !in old(pages)
      ensures pages == old(pages)[pgno := MemPage([], 0, 0)]
    {
      SpareNumber(pages.Keys);
      pgno :| pgno > 1 && pgno !in pages.Keys;
      pages := pages[pgno := MemPage([], 0, 0)];
    }

    /** A new table: one page that was in no use, and the other pages as they were. */
    method CreateTable() returns (pgnoRoot: Pgno)
      modifies this`pages, this`idxShift
      ensures Balanced(pages, pgnoRoot, 1, [], multiset{pgnoRoot}) && pgnoRoot !in old(pages)
      ensures pages - {pgnoRoot} == old(pages)
      ensures old(Indexed(pages, idxParent, {})) ==> Indexed(pages, idxParent, {})
    {
      pgnoRoot := AllocatePage();
      ZeroPage(pgnoRoot);
      EmptyTable(pages, pgnoRoot);
      if Indexed(old(pages), idxParent, {}) { OneNew(old(pages), idxParent, pgnoRoot); }
    }

    method FreePage(pgno: Pgno)
      modifies this`pages, this`idxShift
      ensures pages == old(pages) - {pgno}
    {
      pages := pages - {pgno};
    }

    method ZeroPage(pgno: Pgno)
      requires pgno in pages
      modifies this`pages, this`idxShift
      ensures pages == old(pages)[pgno := MemPage([], 0, old(pages)[pgno].pParent)]
    {
      pages := pages[pgno := MemPage([], 0, pages[pgno].pParent)];
    }

    /** k pages for the new siblings: old siblings first, then new pages, all blank. */
    method TakePages(pgnoOld: seq<Pgno>, k: nat) returns (pgnoNew: seq<Pgno>)
      requires Distinct(pgnoOld) && 0 !in pgnoOld && forall j | 0 <= j < |pgnoOld| :: pgnoOld[j] in pages
      modifies this`pages, this`idxShift
      ensures |pgnoNew| == k && Chosen(old(pages), pgnoOld, pgnoNew) && Blanked(old(pages), pages, pgnoNew)
      ensures forall j | 0 <= j < |pgnoOld| && j < k :: pgnoNew[j] == pgnoOld[j]
      ensures forall j | |pgnoOld| <= j < k :: pgnoNew[j] !in old(pages)
    {
      pgnoNew := [];
      var i := 0;
      while i < k
        invariant 0 <= i <= k && |pgnoNew| == i
        invariant forall j | 0 <= j < |pgnoOld| && j < i :: pgnoNew[j] == pgnoOld[j]
        invariant forall j | |pgnoOld| <= j < i :: pgnoNew[j] !in old(pages)
        invariant Chosen(old(pages), pgnoOld, pgnoNew) && Blanked(old(pages), pages, pgnoNew)
      {
        var pgno := 0;
        if i < |pgnoOld| {
          pgno := pgnoOld[i];
        } else {
          pgno := AllocatePage();
        }
        ZeroPage(pgno);
        pgnoNew := pgnoNew + [pgno];
        i := i + 1;
      }
    }

    /** Old siblings that were not reused go. */
    method FreeRest(pgnoOld: seq<Pgno>, k: nat)
      modifies this`pages, this`idxShift
      ensures Freed(old(pages), pages, if k < |pgnoOld| then pgnoOld[k..] else [])
    {
      var i := k;
      while i < |pgnoOld|
        invariant k <= i && (i <= |pgnoOld| || i == k)
        invariant Freed(old(pages), pages, if k < |pgnoOld| then pgnoOld[k..i] else [])
      {
        assert pgnoOld[k..i + 1] == pgnoOld[k..i] + [pgnoOld[i]];
        FreePage(pgnoOld[i]);
        i := i + 1;
      }
      assert k < |pgnoOld| ==> pgnoOld[k..i] == pgnoOld[k..];
    }

    /** The page numbers in ascending order: the minimum of the rest, place by place. */
    method SortPages(pgnoNew: seq<Pgno>) returns (sorted: seq<Pgno>)
      ensures multiset(sorted) == multiset(pgnoNew) && Ascending(sorted)
    {
      sorted := pgnoNew;
      var i := 0;
      while i < |sorted| - 1
        invariant 0 <= i && (i <= |sorted| - 1 || i == 0) && |sorted| == |pgnoNew|
        invariant multiset(sorted) == multiset(pgnoNew)
        invariant forall a, b | 0 <= a < i && a < b < |sorted| :: sorted[a] <= sorted[b]
      {
        var minI := LeastFrom(sorted, i);
        if minI > i {
          sorted := sorted[i := sorted[minI]][minI := sorted[i]];
        }
        i := i + 1;
      }
    }

    method LeastFrom(s: seq<Pgno>, i: nat) returns (minI: nat)
      requires i < |s|
      ensures i <= minI < |s| && forall j | i <= j < |s| :: s[minI] <= s[j]
    {
      minI := i;
      var j := i + 1;
      while j < |s|
        invariant i <= minI < j <= |s| && forall a | i <= a < j :: s[minI] <= s[a]
      {
        if s[j] < s[minI] { minI := j; }
        j := j + 1;
      }
    }

    /** Cells j to end of the row go onto the blank page. */
    method FillPage(pgno: Pgno, apCell: seq<Cell>, j0: nat, end: nat, cur0: Cur, iCur: int) returns (cur: Cur)
      requires pgno in pages && pages[pgno].apCell == [] && j0 <= end <= |apCell|
      modifies this`pages, this`idxShift
      ensures cur == if cur0.On? && j0 <= iCur < end then On(pgno, iCur - j0) else cur0
      ensures pages == old(pages)[pgno := old(pages)[pgno].(apCell := apCell[j0..end])]
    {
      var j := j0;
      cur := cur0;
      assert apCell[j0..j] == [];
      while j < end
        invariant cur == if cur0.On? && j0 <= iCur < j then On(pgno, iCur - j0) else cur0
        invariant j0 <= j <= end && pgno in pages
        invariant pages[pgno].apCell == apCell[j0..j]
        invariant pages == old(pages)[pgno := old(pages)[pgno].(apCell := pages[pgno].apCell)]
      {
        if cur.On? && iCur == j { cur := On(pgno, |pages[pgno].apCell|); }
        InsertCell(pgno, |pages[pgno].apCell|, apCell[j]);
        assert apCell[j0..j + 1] == apCell[j0..j] + [apCell[j]];
        j := j + 1;
      }
    }

    /** One round of dealing: a page's cells, then the divider into the parent. */
    method DealPage(i: nat, apCell: seq<Cell>, cntNew: array<int>, pgnoNew: seq<Pgno>, par: Pgno, j0: nat, nxDiv0: nat,
                    cur0: Cur, iCur: int, ghost m0: Pager, ghost l: Layout)
      returns (j: nat, nxDiv: nat, cur: Cur)
      requires Blank(m0, l) && i < |l.cnt| && RoundsDone(m0, pages, l, i)
      requires apCell == l.row && pgnoNew == l.news && par == l.par
      requires cntNew.Length >= |l.cnt| && cntNew[i] == l.cnt[i]
      requires j0 == Start(l.cnt, i) && nxDiv0 == |l.pre| + i
      modifies this`pages, this`idxShift
      ensures RoundsDone(m0, pages, l, i + 1) && pages.Keys == old(pages).Keys
      ensures i + 1 < |l.cnt| ==> j == Start(l.cnt, i + 1) && nxDiv == |l.pre| + i + 1
      ensures i + 1 == |l.cnt| ==> nxDiv == |l.pre| + i
      ensures CutAt(|l.row|, l.cnt, i) && cur == if cur0.On? then Moved(l, iCur, cur0, i) else cur0
    {
      j, nxDiv := j0, nxDiv0;
      assert CutAt(|l.row|, l.cnt, i);
      RoundFacts(m0, pages, l, i);
      cur := FillPage(pgnoNew[i], apCell, j, cntNew[i], cur0, iCur);
      j := cntNew[i];
      if i < |pgnoNew| - 1 && j < |apCell| {
        if cur.On? && iCur == j { cur := On(par, nxDiv); }
        PlaceDivider(pgnoNew[i], par, nxDiv, apCell[j]);
        InsertDivider(l, i);
        j, nxDiv := j + 1, nxDiv + 1;
      }
      assert pages == AfterRound(m0, old(pages), l, i);
      RoundsStep(m0, old(pages), l, i);
    }

    /** The divider's subtree becomes the page's right child; the divider, over the page, goes to the parent. */
    method PlaceDivider(pgno: Pgno, par: Pgno, nxDiv: nat, cell: Cell)
      requires pgno in pages && par in pages && pgno != par && nxDiv <= |pages[par].apCell|
      modifies this`pages, this`idxShift
      ensures var m := old(pages);
        pages == m[pgno := m[pgno].(rightChild := cell.leftChild)]
                  [par := m[par].(apCell := m[par].apCell[..nxDiv] + [Cell(pgno, cell.item)] + m[par].apCell[nxDiv..])]
    {
      pages := pages[pgno := pages[pgno].(rightChild := cell.leftChild)];
      InsertCell(par, nxDiv, Cell(pgno, cell.item));
    }

    /** All cells are dealt out, and the last page is linked in. */
    method DealCells(apCell: seq<Cell>, cntNew: array<int>, pgnoNew: seq<Pgno>, par: Pgno, nxDiv0: nat, tail: Pgno,
                     cur0: Cur, iCur: int, ghost l: Layout, ghost c: Ctx, ghost x: Pgno)
      returns (cur: Cur, ghost m1: Pager)
      requires Blank(pages, l) && Hole(pages, l, c, x)
      requires apCell == l.row && pgnoNew == l.news && par == l.par && tail == l.tail && nxDiv0 == |l.pre|
      requires cntNew.Length >= |l.cnt| && cntNew[..|l.cnt|] == l.cnt
      modifies this`pages, this`idxShift
      ensures Blank(old(pages), l) && RoundsDone(old(pages), m1, l, |l.cnt|) && LastOf(l) in m1
      ensures pages == Linked(m1, l, c) && m1.Keys == old(pages).Keys
      ensures cur == if cur0.On? then Tracked(l, iCur, cur0, |l.cnt|) else cur0
    {
      ghost var m0 := pages;
      var nxDiv;
      nxDiv, cur := DealPages(apCell, cntNew, pgnoNew, par, nxDiv0, cur0, iCur, l);
      m1 := pages;
      LinkUp(LastOf(l), pgnoNew, par, nxDiv, tail, m0, l, c, x);
    }

    method LinkUp(ghost last: Pgno, pgnoNew: seq<Pgno>, par: Pgno, nxDiv: nat, tail: Pgno,
                  ghost m0: Pager, ghost l: Layout, ghost c: Ctx, ghost x: Pgno)
      requires Blank(m0, l) && Hole(m0, l, c, x) && RoundsDone(m0, pages, l, |l.cnt|)
      requires last == LastOf(l) && pgnoNew == l.news && par == l.par && tail == l.tail && nxDiv == |l.pre| + |l.cnt| - 1
      modifies this`pages, this`idxShift
      ensures last in old(pages) && pages == Linked(old(pages), l, c)
    {
      LinksToLast(m0, pages, l, c, x);
      LinkLast(pgnoNew[|pgnoNew| - 1], par, nxDiv, tail);
    }

    /** Every page in turn. */
    method DealPages(apCell: seq<Cell>, cntNew: array<int>, pgnoNew: seq<Pgno>, par: Pgno, nxDiv0: nat,
                     cur0: Cur, iCur: int, ghost l: Layout)
      returns (nxDiv: nat, cur: Cur)
      requires Blank(pages, l) && apCell == l.row && pgnoNew == l.news && par == l.par && nxDiv0 == |l.pre|
      requires cntNew.Length >= |l.cnt| && cntNew[..|l.cnt|] == l.cnt
      modifies this`pages, this`idxShift
      ensures Blank(old(pages), l) && RoundsDone(old(pages), pages, l, |l.cnt|) && pages.Keys == old(pages).Keys
      ensures nxDiv == |l.pre| + |l.cnt| - 1
      ensures cur == if cur0.On? then Tracked(l, iCur, cur0, |l.cnt|) else cur0
    {
      ghost var m0 := pages;
      RoundsStart(m0, l);
      cur, nxDiv := cur0, nxDiv0;
      var i, j := 0, 0;
      while i < |pgnoNew|
        invariant 0 <= i <= |l.cnt| && RoundsAt(m0, pages, l, i, j, nxDiv) && TrackedTo(l, iCur, cur0, cur, i)
        invariant forall k | 0 <= k < |l.cnt| :: cntNew[k] == l.cnt[k]
      {
        j, nxDiv, cur := DealNext(i, apCell, cntNew, pgnoNew, par, j, nxDiv, cur, iCur, cur0, m0, l);
        i := i + 1;
      }
    }

    method DealNext(i: nat, apCell: seq<Cell>, cntNew: array<int>, pgnoNew: seq<Pgno>, par: Pgno, j0: nat, nxDiv0: nat,
                    cur1: Cur, iCur: int, ghost cur0: Cur, ghost m0: Pager, ghost l: Layout)
      returns (j: nat, nxDiv: nat, cur: Cur)
      requires Blank(m0, l) && i < |l.cnt| && RoundsAt(m0, pages, l, i, j0, nxDiv0) && TrackedTo(l, iCur, cur0, cur1, i)
      requires apCell == l.row && pgnoNew == l.news && par == l.par
      requires cntNew.Length >= |l.cnt| && cntNew[i] == l.cnt[i]
      modifies this`pages, this`idxShift
      ensures RoundsAt(m0, pages, l, i + 1, j, nxDiv) && TrackedTo(l, iCur, cur0, cur, i + 1)
    {
      j, nxDiv, cur := DealPage(i, apCell, cntNew, pgnoNew, par, j0, nxDiv0, cur1, iCur, m0, l);
      TrackedStep(l, iCur, cur0, cur1, cur, i);
    }

    /** The last page gets the group's right child, and its parent's link to it is set. */
    method LinkLast(last: Pgno, par: Pgno, nxDiv: nat, tail: Pgno)
      requires last in pages && par in pages && last != par && nxDiv <= |pages[par].apCell|
      modifies this`pages, this`idxShift
      ensures pages == old(pages)[last := old(pages)[last].(rightChild := tail)][par := WithLink(old(pages)[par], nxDiv, last)]
    {
      pages := pages[last := pages[last].(rightChild := tail)];
      if nxDiv == |pages[par].apCell| {
        pages := pages[par := pages[par].(rightChild := last)];
      } else {
        var cells := pages[par].apCell;
        pages := pages[par := pages[par].(apCell := cells[nxDiv := cells[nxDiv].(leftChild := last)])];
      }
    }

    /** The pages for k new siblings: old ones reused, new ones allocated, the rest freed, in ascending order. */
    method ChoosePages(pgnoOld: seq<Pgno>, k: nat) returns (pgnoNew: seq<Pgno>)
      requires Distinct(pgnoOld) && 0 !in pgnoOld && forall j | 0 <= j < |pgnoOld| :: pgnoOld[j] in pages
      modifies this`pages, this`idxShift
      ensures |pgnoNew| == k && Chosen(old(pages), pgnoOld, pgnoNew) && Ascending(pgnoNew)
      ensures Replaced(old(pages), pages, pgnoOld, pgnoNew)
    {
      ghost var m := pages;
      var taken := TakePages(pgnoOld, k);
      ghost var m1 := pages;
      FreeRest(pgnoOld, k);
      TakenAndFreed(m, m1, pages, pgnoOld, taken);
      pgnoNew := SortPages(taken);
      SortedChosen(m, pages, pgnoOld, taken, pgnoNew);
      assert |multiset(pgnoNew)| == |multiset(taken)|;
    }

    /** Every new sibling adopts its children, then the parent its own. */
    method AdoptChildren(pgnoNew: seq<Pgno>, par: Pgno, ghost l: Layout, ghost c: Ctx)
      requires Ok(l) && !c.Top? && pgnoNew == l.news && par == c.pg
      requires EachApart(pages, pgnoNew) && Indexed(pages, idxParent, InHand(par, pgnoNew, 0))
      requires par in pages && pages[par] == NewParent(l, c) && KidsApartFrom(Children(NewParent(l, c)))
      modifies this
      ensures pages == AfterAdoptions(old(pages), l, c) && Indexed(pages, idxParent, {})
    {
      AdoptBelow(pgnoNew, par);
      ParentsTurn(old(pages), pages, l, c);
      ReparentChildPages(par, {par});
      assert {par} - {par} == {};
    }

    method AdoptBelow(pgnoNew: seq<Pgno>, ghost par: Pgno)
      requires EachApart(pages, pgnoNew) && Indexed(pages, idxParent, InHand(par, pgnoNew, 0))
      modifies this
      ensures pages == AdoptedAll(old(pages), pgnoNew, |pgnoNew|) && Indexed(pages, idxParent, {par})
    {
      ghost var m := pages;
      var i := 0;
      while i < |pgnoNew|
        invariant 0 <= i <= |pgnoNew| && AdoptedTo(m, pages, pgnoNew, i)
        invariant Indexed(pages, idxParent, InHand(par, pgnoNew, i))
      {
        ghost var m1 := pages;
        StillApart(m, m1, pgnoNew, i);
        OneLess(par, pgnoNew, i);
        ReparentChildPages(pgnoNew[i], InHand(par, pgnoNew, i));
        AdoptedOne(m, m1, pages, pgnoNew, i);
        MoreInWork(pages, idxParent, InHand(par, pgnoNew, i) - {pgnoNew[i]}, InHand(par, pgnoNew, i + 1));
        i := i + 1;
      }
      NoneLeft(par, pgnoNew);
    }

    /** A cursor on the parent behind the group moves with its cell. */
    method ShiftCursor(cur0: Cur, par: Pgno, idxDivLast: int, nOld: nat, nNew: nat, j: nat, iCur: int) returns (cur: Cur)
      ensures cur == Shifted(cur0, par, j, iCur, idxDivLast, nOld, nNew)
    {
      cur := cur0;
      if cur.On? && j <= iCur && cur.pPage == par && cur.idx > idxDivLast {
        cur := On(par, cur.idx + nNew - nOld);
      }
    }

    /** The row is split and dealt out over the chosen pages. */
    method LayOut(par: Pgno, nxDiv: nat, pgnoOld: seq<Pgno>, apCell: seq<Cell>, szCell: seq<int>, tail: Pgno,
                  cur0: Cur, iCur: int, idxDivLast: int,
                  ghost m: Pager, ghost g: Ctx, ghost pre: seq<Cell>, ghost post: seq<Cell>, ghost x: Pgno)
      returns (cur: Cur, pgnoNew: seq<Pgno>, ghost l: Layout)
      requires |apCell| >= 1 && szCell == Sizes(apCell) && |pre| == nxDiv
      requires !g.Top? && par == g.pg && par in m && par !in pgnoOld && m[par] == ParentPage(g, x)
      requires post == (if g.InCell? then [Cell(x, g.item)] + g.rest else [])
      requires pages == m[par := m[par].(apCell := pre + post)]
      requires Distinct(pgnoOld) && 0 !in pgnoOld && forall j | 0 <= j < |pgnoOld| :: pgnoOld[j] in m
      requires |pgnoOld| <= NB && Room(szCell, |pgnoOld| + 1)
      modifies this`pages, this`idxShift
      ensures l.par == par && l.pre == pre && l.post == post && l.row == apCell && l.tail == tail
      ensures Supplied(m, pgnoOld, l.news) && 0 !in l.news && Ascending(l.news) && pgnoNew == l.news
      ensures Dealt(m, pages, l, g, pgnoOld) && Renumbered(m, pages, pgnoOld, l.news) && BackAsBefore(m, pages, l.news)
      ensures Fits(szCell, l.cnt)
      ensures |l.cnt| <= |pgnoOld| + 1 && (USABLE_SPACE + 1) * (|l.cnt| - 1) <= Sum(szCell, 0, |szCell|)
      ensures cur == BalancedCursor(l, iCur, cur0, idxDivLast, |pgnoOld|)
    {
      SizesRange(apCell);
      var cntNew, szNew := new int[NB + 1], new int[NB + 1];
      var k := SplitCells(szCell, cntNew, szNew);
      FitsAreCuts(szCell, cntNew[..k]);
      pgnoNew := ChoosePages(pgnoOld, k);
      l := Layout(par, pre, post, apCell, tail, cntNew[..k], pgnoNew);
      ghost var m0 := pages;
      ReadyToDeal(m, m0, l, g, pgnoOld, x);
      ghost var filled;
      cur, filled := DealCells(apCell, cntNew, pgnoNew, par, nxDiv, tail, cur0, iCur, l, g, x);
      cur := ShiftCursor(cur, par, idxDivLast, |pgnoOld|, k, |apCell|, iCur);
      AllDealt(m, m0, filled, l, g, pgnoOld);
      BackThroughDealing(m, m0, filled, l, g);
    }

    /** Every page of the group, and every page below it, is told its parent and its place. */
    method TellGroup(pgnoNew: seq<Pgno>, ghost pg: Pgno, par: Pgno, ghost m: Pager, ghost l: Layout, ghost g: Ctx, ghost h: nat,
                     ghost divs: seq<Cell>, ghost last: Pgno)
      requires h > 0 && !g.Top? && pgnoNew == l.news && par == g.pg && Planned(m, l, g, divs, last, h)
      requires Dealt(m, pages, l, g, Members(divs, last)) && Renumbered(m, pages, Members(divs, last), l.news)
      requires BackAsBefore(m, pages, l.news) && Indexed(m, idxParent, {pg}) && pg in Members(divs, last)
      requires par in m && m[par] == ParentPage(g, last)
      modifies this
      ensures pages == AfterAdoptions(old(pages), l, g) && Indexed(pages, idxParent, {})
    {
      DealtIndexed(m, pages, idxParent, l, g, Members(divs, last), last, pg);
      GroupApart(m, pages, l, g, divs, last, h);
      AdoptChildren(pgnoNew, par, l, g);
    }

    /** Page pg and its neighbours below page par. */
    method FindGroup(pg: Pgno, par: Pgno, ghost c: Ctx, ghost h: nat) returns (nxDiv: nat, pgnoOld: seq<Pgno>, idxDiv: seq<int>)
      requires h > 0 && !c.Top? && par == c.pg && par in pages && CtxTree(pages, c, pg, h) && par != pg
      requires pg in pages && pg != 0 && pages[pg].pParent == par && Indexed(pages, idxParent, {pg})
      modifies this`idxParent
      ensures idxParent == old(idxParent)
      ensures GroupOf(pages, c, pg, nxDiv, pgnoOld) && |pgnoOld| <= NB && (pages[par].apCell != [] ==> |pgnoOld| > 1)
      ensures DividerIndices(idxDiv, nxDiv, |pgnoOld|, |pages[par].apCell|)
      ensures pgnoOld[|pgnoOld| - 1] == Child(pages[par], nxDiv + |pgnoOld| - 1)
    {
      var idx := IndexInParent(par, pg, c, h, {pg});
      FamilyAround(pages, c, pg, h);
      assert AllTold(pages, idxParent, par);
      nxDiv, pgnoOld, idxDiv := FindSiblings(par, idx);
      assert pgnoOld[idx - nxDiv] == pg;
    }

    /** One round of balance: page pg and its neighbours are laid out again. */
    method BalanceSiblings(pg: Pgno, par: Pgno, cur0: Cur, ghost c: Ctx, ghost h: nat,
                           ghost entries: seq<Payload>, ghost b: multiset<Pgno>, ghost root: Pgno, ghost x: Goal)
      returns (cur: Cur, ghost bag: multiset<Pgno>)
      requires Indexed(pages, idxParent, {pg})
      requires CurOn(pages, b, cur0, x) && OffSpine(c, cur0)
      requires h > 0 && !c.Top? && par == c.pg && par in pages && pg in pages && Balanceable(pages, c, pg, h)
      requires Entries(pages, c, pg, h) == entries && Pages(pages, c, pg, h) == b
      requires pages[par].apCell != [] || pages[pg].apCell != []
      requires PageBytes(pages[pg].apCell) <= OVERFULL && PageBytes(pages[par].apCell) <= USABLE_SPACE
      requires SoundBut(pages, b, {pg, par}, root)
      modifies this
      ensures Indexed(pages, idxParent, {})
      ensures Holds(pages, c.up, par, h + 1, entries, bag)
      ensures SoundBut(pages, bag, {par}, root) && Conserved(old(pages), b, pages, bag)
      ensures par in pages && Crowded(pages[par].apCell)
      ensures old(pages[par].apCell) == [] ==> PageBytes(pages[par].apCell) * 4 <= old(PageBytes(pages[pg].apCell))
      ensures CurOn(pages, bag, cur, x) && OffSpine(c.up, cur)
    {
      AnyGroupHolds(pages, c, pg, h, entries, b);
      KnowsParent(pages, c, pg, h);
      var nxDiv, pgnoOld, idxDiv := FindGroup(pg, par, c, h);
      cur, bag := BalanceGroup(pg, par, nxDiv, pgnoOld, idxDiv, cur0, c, h, entries, b, root, x);
    }

    method BalanceGroup(pg: Pgno, par: Pgno, nxDiv: nat, pgnoOld: seq<Pgno>, idxDiv: seq<int>, cur0: Cur,
                        ghost c: Ctx, ghost h: nat,
                        ghost entries: seq<Payload>, ghost b: multiset<Pgno>, ghost root: Pgno, ghost x: Goal)
      returns (cur: Cur, ghost bag: multiset<Pgno>)
      requires Indexed(pages, idxParent, {pg})
      requires h > 0 && !c.Top? && par == c.pg && par in pages && pg in pages && |pgnoOld| <= NB
      requires CurOn(pages, b, cur0, x) && OffSpine(c, cur0) && DividerIndices(idxDiv, nxDiv, |pgnoOld|, |pages[par].apCell|)
      requires GroupOf(pages, c, pg, nxDiv, pgnoOld) && (|pgnoOld| > 1 || pages[pg].apCell != [])
      requires AnyGroup(pages, c, h, entries, b)
      requires PageBytes(pages[pg].apCell) <= OVERFULL && PageBytes(pages[par].apCell) <= USABLE_SPACE
      requires SoundBut(pages, b, {pg, par}, root)
      modifies this
      ensures Indexed(pages, idxParent, {})
      ensures Holds(pages, c.up, par, h + 1, entries, bag)
      ensures SoundBut(pages, bag, {par}, root) && Conserved(old(pages), b, pages, bag)
      ensures par in pages && Crowded(pages[par].apCell)
      ensures old(pages[par].apCell) == [] ==> PageBytes(pages[par].apCell) * 4 <= old(PageBytes(pages[pg].apCell))
      ensures CurOn(pages, bag, cur, x) && OffSpine(c.up, cur)
    {
      ghost var g := GroupCtx(pages, c, nxDiv + |pgnoOld| - 1);
      OneGroup(pages, c, pg, nxDiv, pgnoOld, h, g, entries, b);
      HeldIsLinked(pages, c, pg, nxDiv, pgnoOld, h, g, entries, b);
      RowHasCells(pages, g, pages[par], nxDiv, pgnoOld, pg);
      LinkedRoom(pages, g, pages[par], nxDiv, pgnoOld, h, entries, b, pg, root);
      cur, bag := SettleGroup(pg, par, nxDiv, pgnoOld, idxDiv, cur0, g, h, entries, b, root, x);
    }

    /** The same, if there is a cursor. */
    method CursorPlace(cur: Cur, par: Pgno, nxDiv: nat, pgnoOld: seq<Pgno>, idxDiv: seq<int>, ghost divs: seq<Cell>, ghost last: Pgno)
      returns (iCur: int)
      requires par in pages && 1 <= |pgnoOld| && nxDiv + |pgnoOld| <= |pages[par].apCell| + 1 && par !in pgnoOld
      requires forall j | 0 <= j < |pgnoOld| :: pgnoOld[j] == Child(pages[par], nxDiv + j) && pgnoOld[j] in pages
      requires divs == pages[par].apCell[nxDiv..nxDiv + |pgnoOld| - 1] && last == pgnoOld[|pgnoOld| - 1]
      requires DividerIndices(idxDiv, nxDiv, |pgnoOld|, |pages[par].apCell|)
      ensures cur.On? ==> RowIndex(pages, par, nxDiv, pgnoOld, Row(pages, divs, last), cur, iCur)
    {
      iCur := 0;
      if cur.On? { iCur := CursorIndex(cur, par, nxDiv, pgnoOld, idxDiv); }
    }

    /** The group's cells are gathered, and dealt out again. */
    method DealGroup(par: Pgno, nxDiv: nat, pgnoOld: seq<Pgno>, idxDiv: seq<int>, cur0: Cur,
                     ghost g: Ctx, ghost h: nat, ghost divs: seq<Cell>, ghost last: Pgno)
      returns (cur: Cur, ghost iCur: int, pgnoNew: seq<Pgno>, ghost l: Layout)
      requires h > 0 && !g.Top? && par == g.pg && par in pages
      requires 1 <= |pgnoOld| && nxDiv + |pgnoOld| <= |pages[par].apCell| + 1
      requires forall j | 0 <= j < |pgnoOld| :: pgnoOld[j] == Child(pages[par], nxDiv + j) && pgnoOld[j] in pages
      requires divs == pages[par].apCell[nxDiv..nxDiv + |pgnoOld| - 1] && last == pgnoOld[|pgnoOld| - 1]
      requires GroupLinks(pages, g, pages[par], nxDiv, pgnoOld)
      requires Row(pages, divs, last) != [] && |pgnoOld| <= NB && Room(Sizes(Row(pages, divs, last)), |pgnoOld| + 1)
      requires DividerIndices(idxDiv, nxDiv, |pgnoOld|, |pages[par].apCell|)
      modifies this`pages, this`idxShift
      ensures l.par == par && l.pre == old(pages[par].apCell[..nxDiv]) && l.news == pgnoNew
      ensures l.row == Row(old(pages), divs, last) && l.tail == Tail(old(pages), last)
      ensures Supplied(old(pages), pgnoOld, l.news) && 0 !in l.news && BackAsBefore(old(pages), pages, l.news)
      ensures Dealt(old(pages), pages, l, g, pgnoOld) && Renumbered(old(pages), pages, pgnoOld, l.news)
      ensures Fits(Sizes(l.row), l.cnt) && |l.cnt| <= |pgnoOld| + 1 && (USABLE_SPACE + 1) * (|l.cnt| - 1) <= PageBytes(l.row)
      ensures cur0.On? ==> RowIndex(old(pages), par, nxDiv, pgnoOld, l.row, cur0, iCur)
      ensures cur == BalancedCursor(l, iCur, cur0, idxDiv[|pgnoOld| - 1], |pgnoOld|)
    {
      ghost var m, page, n := pages, pages[par], |pgnoOld| - 1;
      assert Tail(m, pgnoOld[n]) == m[pgnoOld[n]].rightChild;
      var tail := pages[pgnoOld[|pgnoOld| - 1]].rightChild;
      var at := CursorPlace(cur0, par, nxDiv, pgnoOld, idxDiv, divs, last);
      iCur := at;
      var apCell, szCell := LoadCells(par, nxDiv, pgnoOld);
      cur, pgnoNew, l := LayOut(par, nxDiv, pgnoOld, apCell, szCell, tail, cur0, at, idxDiv[|pgnoOld| - 1], m, g,
                                page.apCell[..nxDiv], page.apCell[nxDiv + n..], pgnoOld[n]);
    }

    /** So they are, and every page is told its parent and its place there. */
    method LayOutGroup(ghost pg: Pgno, par: Pgno, nxDiv: nat, pgnoOld: seq<Pgno>, idxDiv: seq<int>, cur0: Cur,
                       ghost g: Ctx, ghost h: nat, ghost divs: seq<Cell>, ghost last: Pgno)
      returns (cur: Cur, ghost iCur: int, ghost l: Layout, ghost m1: Pager)
      requires Indexed(pages, idxParent, {pg})
      requires h > 0 && !g.Top? && par == g.pg && par in pages && pg in pgnoOld
      requires 1 <= |pgnoOld| && nxDiv + |pgnoOld| <= |pages[par].apCell| + 1
      requires forall j | 0 <= j < |pgnoOld| :: pgnoOld[j] == Child(pages[par], nxDiv + j) && pgnoOld[j] in pages
      requires divs == pages[par].apCell[nxDiv..nxDiv + |pgnoOld| - 1] && last == pgnoOld[|pgnoOld| - 1]
      requires LooseAt(pages, g, last, h) && GroupLinks(pages, g, pages[par], nxDiv, pgnoOld)
      requires Row(pages, divs, last) != [] && |pgnoOld| <= NB && Room(Sizes(Row(pages, divs, last)), |pgnoOld| + 1)
      requires DividerIndices(idxDiv, nxDiv, |pgnoOld|, |pages[par].apCell|)
      modifies this
      ensures Indexed(pages, idxParent, {})
      ensures l.par == par && l.pre == old(pages[par].apCell[..nxDiv]) && Planned(old(pages), l, g, divs, last, h)
      ensures Dealt(old(pages), m1, l, g, pgnoOld) && Renumbered(old(pages), m1, pgnoOld, l.news)
      ensures Fits(Sizes(l.row), l.cnt) && |l.cnt| <= |pgnoOld| + 1 && (USABLE_SPACE + 1) * (|l.cnt| - 1) <= PageBytes(l.row)
      ensures pages == AfterAdoptions(m1, l, g)
      ensures cur0.On? ==> RowIndex(old(pages), par, nxDiv, pgnoOld, l.row, cur0, iCur)
      ensures cur == BalancedCursor(l, iCur, cur0, idxDiv[|pgnoOld| - 1], |pgnoOld|)
    {
      ghost var m := pages;
      var pgnoNew;
      cur, iCur, pgnoNew, l := DealGroup(par, nxDiv, pgnoOld, idxDiv, cur0, g, h, divs, last);
      m1 := pages;
      GroupPlanned(m, l, g, nxDiv, pgnoOld, h);
      TellGroup(pgnoNew, pg, par, m, l, g, h, divs, last);
    }

    method SettleGroup(pg: Pgno, par: Pgno, nxDiv: nat, pgnoOld: seq<Pgno>, idxDiv: seq<int>, cur0: Cur, ghost g: Ctx, ghost h: nat,
                       ghost entries: seq<Payload>, ghost b: multiset<Pgno>, ghost root: Pgno, ghost x: Goal)
      returns (cur: Cur, ghost bag: multiset<Pgno>)
      requires Indexed(pages, idxParent, {pg})
      requires par in pages && DividerIndices(idxDiv, nxDiv, |pgnoOld|, |pages[par].apCell|)
      requires CurOn(pages, b, cur0, x) && OffSpine(g, cur0)
      requires h > 0 && !g.Top? && par == g.pg && par in pages && pg in pgnoOld
      requires 1 <= |pgnoOld| && nxDiv + |pgnoOld| <= |pages[par].apCell| + 1
      requires forall j | 0 <= j < |pgnoOld| :: pgnoOld[j] == Child(pages[par], nxDiv + j) && pgnoOld[j] in pages
      requires LooseHolds(pages, g, pgnoOld[|pgnoOld| - 1], h, entries, b)
      requires GroupLinks(pages, g, pages[par], nxDiv, pgnoOld)
      requires var row := Row(pages, pages[par].apCell[nxDiv..nxDiv + |pgnoOld| - 1], pgnoOld[|pgnoOld| - 1]);
        row != [] && |pgnoOld| <= NB && Room(Sizes(row), |pgnoOld| + 1)
      requires SoundBut(pages, b, {pg, par}, root) && PageBytes(pages[par].apCell) <= USABLE_SPACE
      modifies this
      ensures Indexed(pages, idxParent, {})
      ensures Holds(pages, g.up, par, h + 1, entries, bag)
      ensures SoundBut(pages, bag, {par}, root) && Conserved(old(pages), b, pages, bag)
      ensures par in pages && Crowded(pages[par].apCell)
      ensures old(pages[par].apCell) == [] ==>
        pg in old(pages) && PageBytes(pages[par].apCell) * 4 <= old(PageBytes(pages[pg].apCell))
      ensures CurOn(pages, bag, cur, x) && OffSpine(g.up, cur)
    {
      ghost var m, last := pages, pgnoOld[|pgnoOld| - 1];
      ghost var divs := pages[par].apCell[nxDiv..nxDiv + |pgnoOld| - 1];
      ghost var iCur, l, m1;
      cur, iCur, l, m1 := LayOutGroup(pg, par, nxDiv, pgnoOld, idxDiv, cur0, g, h, divs, last);
      bag := NewBag(m, l, g, divs, last, h);
      RoundEnds(m, m1, pages, l, g, divs, last, h, entries, b, pg, root);
      ParentCrowded(m, m1, pages, l, g, divs, last, h);
      CursorSettled(m, m1, pages, l, g, divs, last, h, b, nxDiv, pgnoOld, iCur, cur0, cur, idxDiv[|pgnoOld| - 1], x);
      if m[par].apCell == [] {
        LoneSibling(m, g, m[par], nxDiv, pgnoOld, pg);
        ParentShrinks(m, m1, pages, l, g, divs, last, h);
      }
    }

    /** Bytes the cells of a page take; more than a page's worth means the page is overfull. */
    method UsedBytes(pg: Pgno) returns (n: int)
      requires pg in pages
      ensures n == PageBytes(pages[pg].apCell)
    {
      n := 0;
      var i := 0;
      ghost var sz := Sizes(pages[pg].apCell);
      while i < |pages[pg].apCell|
        invariant 0 <= i <= |pages[pg].apCell| && n == Sum(sz, 0, i)
      {
        n := n + CellSize(pages[pg].apCell[i].item);
        i := i + 1;
      }
    }

    /** The overfull root's content moves one level down. */
    method DeepenRoot(pg: Pgno, cur0: Cur, ghost h: nat, ghost b: multiset<Pgno>, ghost x: Goal) returns (child: Pgno, cur: Cur)
      requires Indexed(pages, idxParent, {})
      requires CurOn(pages, b, cur0, x)
      requires h > 0 && pg in pages && Holds(pages, Top, pg, h, Entries(pages, Top, pg, h), b) && SoundBut(pages, b, {pg}, pg)
      modifies this
      ensures Indexed(pages, idxParent, {child})
      ensures child in pages && pg in pages && pages[pg].apCell == [] && pages[child].apCell == old(pages[pg].apCell)
      ensures var c := AtRight(Top, pg, []);
        && Balanceable(pages, c, child, h) && Entries(pages, c, child, h) == old(Entries(pages, Top, pg, h))
        && Pages(pages, c, child, h) == b + multiset{child}
      ensures SoundBut(pages, b + multiset{child}, {child, pg}, pg) && Conserved(old(pages), b, pages, b + multiset{child})
      ensures CurOn(pages, b + multiset{child}, cur, x)
      ensures OffSpine(AtRight(Top, pg, []), cur)
    {
      ghost var m := pages;
      NoParent(m, Top, pg, h);
      child := PushDown(pg);
      cur := if cur0.On? && cur0.pPage == pg then On(child, cur0.idx) else cur0;
      DeepRoot(m, pages, pg, child, h, Entries(m, Top, pg, h), b, cur0, cur, x);
    }

    /** A new page gets the root's content, and is its child number 0. */
    method PushDown(pg: Pgno) returns (child: Pgno)
      requires pg in pages && pg != 0 && pages[pg].pParent == 0 && Indexed(pages, idxParent, {})
      modifies this
      ensures child > 1 && child !in old(pages) && pages == Deepened(old(pages), pg, child)
      ensures Indexed(pages, idxParent, {child})
    {
      ghost var m, ix := pages, idxParent;
      child := AllocatePage();
      pages, idxParent := pages[child := pages[pg].(pParent := pg)], idxParent[child := 0];
      ZeroPage(pg);
      pages := pages[pg := pages[pg].(rightChild := child)];
      assert pages == Deepened(m, pg, child);
      DeepenedIndexed(m, ix, pg, child);
    }

    /** The empty root takes over its only child. */
    method FlattenRoot(pg: Pgno, cur0: Cur, ghost h: nat, ghost b: multiset<Pgno>, ghost x: Goal) returns (cur: Cur, ghost bag: multiset<Pgno>)
      requires Indexed(pages, idxParent, {})
      requires CurOn(pages, b, cur0, x)
      requires h > 0 && pg in pages && Holds(pages, Top, pg, h, Entries(pages, Top, pg, h), b) && SoundBut(pages, b, {pg}, pg)
      requires pages[pg].apCell == [] && pages[pg].rightChild != 0
      modifies this
      ensures Indexed(pages, idxParent, {})
      ensures h > 1 && Holds(pages, Top, pg, h - 1, old(Entries(pages, Top, pg, h)), bag)
      ensures Sound(pages, bag, pg) && Conserved(old(pages), b, pages, bag)
      ensures CurOn(pages, bag, cur, x)
    {
      ghost var m := pages;
      var child := pages[pg].rightChild;
      cur := if cur0.On? && cur0.pPage == child then On(pg, cur0.idx) else cur0;
      LoneChild(m, pg, h);
      TakenOver(m, idxParent, pg, child);
      pages := pages[pg := pages[child].(pParent := 0)];
      TellRoot(pg, child, m);
      bag := FlatRoot(m, pages, pg, child, h, Entries(m, Top, pg, h), b, cur0, cur, x);
    }

    /** The children of the page taken over are told, and the page goes. */
    method TellRoot(pg: Pgno, child: Pgno, ghost m: Pager)
      requires pg in m && child in m && pages == m[pg := m[child].(pParent := 0)] && Indexed(pages, idxParent, {pg})
      requires KidsApartFrom(Children(m[child]))
      modifies this
      ensures pages == Flattened(m, pg, child) && Indexed(pages, idxParent, {})
    {
      assert Children(m[child].(pParent := 0)) == Children(m[child]);
      ReparentChildPages(pg, {pg});
      assert {pg} - {pg} == {};
      OneGone(pages, idxParent, {}, child);
      FreePage(child);
    }

    /** A root page in work: flattened, left alone, or deepened and its one child balanced. */
    method BalanceRoot(pg: Pgno, used: int, cur0: Cur, ghost h: nat, ghost entries: seq<Payload>, ghost b: multiset<Pgno>, ghost x: Goal)
      returns (again: bool, cur: Cur, ghost t: nat, ghost bag: multiset<Pgno>)
      requires Indexed(pages, idxParent, {})
      requires CurOn(pages, b, cur0, x)
      ensures CurOn(pages, bag, cur, x)
      requires InWork(pages, Top, pg, h, entries, b) && used == PageBytes(pages[pg].apCell)
      modifies this
      ensures Indexed(pages, idxParent, {})
      ensures Conserved(old(pages), b, pages, bag)
      ensures !again ==> Balanced(pages, pg, t, entries, bag)
      ensures again ==> InWork(pages, Top, pg, t, entries, bag) && 0 <= PageBytes(pages[pg].apCell) < used
    {
      again, cur, t, bag := false, cur0, h, b;
      assert Entries(pages, Top, pg, h) == entries;
      if |pages[pg].apCell| == 0 {
        if pages[pg].rightChild != 0 {
          cur, bag := FlattenRoot(pg, cur0, h, b, x);
          t := h - 1;
        } else {
          NothingToDo(pages, Top, pg, h, h, entries, b, pg);
        }
      } else if used <= USABLE_SPACE {
        NothingToDo(pages, Top, pg, h, h, entries, b, pg);
      } else {
        cur, bag := SplitRoot(pg, cur0, h, entries, b, x);
        again, t := true, h + 1;
      }
    }

    method SplitRoot(pg: Pgno, cur0: Cur, ghost h: nat, ghost entries: seq<Payload>, ghost b: multiset<Pgno>, ghost x: Goal)
      returns (cur: Cur, ghost bag: multiset<Pgno>)
      requires Indexed(pages, idxParent, {})
      requires CurOn(pages, b, cur0, x)
      ensures CurOn(pages, bag, cur, x)
      requires InWork(pages, Top, pg, h, entries, b) && PageBytes(pages[pg].apCell) > USABLE_SPACE
      modifies this
      ensures Indexed(pages, idxParent, {})
      ensures Conserved(old(pages), b, pages, bag) && InWork(pages, Top, pg, h + 1, entries, bag)
      ensures 0 <= PageBytes(pages[pg].apCell) < old(PageBytes(pages[pg].apCell))
    {
      ghost var m := pages;
      assert Entries(pages, Top, pg, h) == entries;
      var child;
      child, cur := DeepenRoot(pg, cur0, h, b, x);
      ghost var m1 := pages;
      cur, bag := BalanceSiblings(child, pg, cur, AtRight(Top, pg, []), h, entries, b + multiset{child}, pg, x);
      BytesBelow(pages[pg].apCell);
      ConservedTwice(m, b, m1, b + multiset{child}, pages, bag);
    }

    /** One round: the siblings laid out again and the parent next, or the root's own cases. */
    method BalanceOnce(pg: Pgno, used: int, cur0: Cur, ghost c: Ctx, ghost h: nat,
                       ghost entries: seq<Payload>, ghost b: multiset<Pgno>, ghost root: Pgno, ghost x: Goal)
      returns (again: bool, next: Pgno, cur: Cur, ghost c1: Ctx, ghost t: nat, ghost bag: multiset<Pgno>)
      requires Indexed(pages, idxParent, {})
      requires InWork(pages, c, pg, h, entries, b) && used == PageBytes(pages[pg].apCell) && root == Root(c, pg)
      requires CurOn(pages, b, cur0, x) && OffSpine(c, cur0)
      modifies this
      ensures Indexed(pages, idxParent, {})
      ensures Conserved(old(pages), b, pages, bag)
      ensures !again ==> Balanced(pages, root, t, entries, bag)
      ensures again ==> InWork(pages, c1, next, t, entries, bag) && Root(c1, next) == root
      ensures again ==> Depth(c1) < Depth(c) || (Depth(c1) == Depth(c) && 0 <= PageBytes(pages[next].apCell) < used)
      ensures CurOn(pages, bag, cur, x) && (again ==> OffSpine(c1, cur))
    {
      NoParent(pages, c, pg, h);
      var par := pages[pg].pParent;
      if par == 0 {
        next, c1 := pg, c;
        again, cur, t, bag := BalanceRoot(pg, used, cur0, h, entries, b, x);
      } else {
        cur, bag := BalanceBelow(pg, par, cur0, c, h, entries, b, root, x);
        again, next, c1, t := true, par, c.up, h + 1;
      }
    }

    /** The siblings of a page below the root are laid out again; now its parent is in work. */
    method BalanceBelow(pg: Pgno, par: Pgno, cur0: Cur, ghost c: Ctx, ghost h: nat,
                        ghost entries: seq<Payload>, ghost b: multiset<Pgno>, ghost root: Pgno, ghost x: Goal)
      returns (cur: Cur, ghost bag: multiset<Pgno>)
      requires Indexed(pages, idxParent, {})
      requires InWork(pages, c, pg, h, entries, b) && !c.Top? && par == c.pg && root == Root(c, pg)
      requires CurOn(pages, b, cur0, x) && OffSpine(c, cur0)
      modifies this
      ensures Indexed(pages, idxParent, {})
      ensures Conserved(old(pages), b, pages, bag) && InWork(pages, c.up, par, h + 1, entries, bag) && Root(c.up, par) == root
      ensures CurOn(pages, bag, cur, x) && OffSpine(c.up, cur)
    {
      MayBalance(pages, c, pg, h, entries, b);
      MoreInWork(pages, idxParent, {}, {pg});
      cur, bag := BalanceSiblings(pg, par, cur0, c, h, entries, b, root, x);
    }

    /**
     * Balancing page pg, and then its ancestors, keeps the entries in order and all leaves equally deep;
     * afterwards every page fits and no page is empty, and no page of the file was lost, leaked or shared.
     * A cursor on a cell of page pg or below stays on its entry, wherever that goes.
     */
    method Balance(pg: Pgno, cur0: Cur, ghost c: Ctx, ghost h: nat, ghost entries: seq<Payload>, ghost b: multiset<Pgno>,
                   ghost root: Pgno, ghost x: Goal)
      returns (cur: Cur, ghost t: nat, ghost bag: multiset<Pgno>)
      requires Indexed(pages, idxParent, {})
      requires InWork(pages, c, pg, h, entries, b) && root == Root(c, pg)
      requires CurOn(pages, b, cur0, x) && OffSpine(c, cur0)
      modifies this
      ensures Indexed(pages, idxParent, {})
      ensures Balanced(pages, root, t, entries, bag) && Conserved(old(pages), b, pages, bag)
      ensures CurOn(pages, bag, cur, x)
      decreases Depth(c), PageBytes(pages[pg].apCell)
    {
      var used := UsedBytes(pg);
      if used <= USABLE_SPACE && USABLE_SPACE - used < SQLITE_USABLE_SIZE / 2 && |pages[pg].apCell| >= 2 {
        cur, bag := cur0, b;
        t := FullEnough(pages, c, pg, h, entries, b, root);
        return;
      }
      var again, next;
      ghost var c1;
      again, next, cur, c1, t, bag := BalanceOnce(pg, used, cur0, c, h, entries, b, root, x);
      if !again { return; }
      ghost var m1, bag1 := pages, bag;
      cur, t, bag := Balance(next, cur, c1, t, entries, bag1, root, x);
      ConservedTwice(old(pages), b, m1, bag1, pages, bag);
    }
  }
}

/** Dealing a row of cells out over blank pages: the memory after each page, and when all are filled. */
module BtreeDeal {
  import opened FileFormat
  import opened BtreeShape
  import opened BtreeLayout
  import opened BtreeSettle

  /** Blank pages under the layout's numbers, and the parent without its dividers. */
  ghost predicate Blank(m0: Pager, l: Layout) {
    && Ok(l) && l.par in m0 && m0[l.par].apCell == l.pre + l.post
    && forall i | 0 <= i < |l.news| :: l.news[i] in m0 && m0[l.news[i]].apCell == [] && m0[l.news[i]].rightChild == 0
  }

  /** Page i as filled by the loop: the last one still lacks its right child. */
  ghost function FilledPage(m0: Pager, l: Layout, i: nat): MemPage
    requires Ok(l) && i < |l.cnt| && l.news[i] in m0
  {
    MemPage(PageCells(l, i), if i < |l.cnt| - 1 then PageRight(l, i) else 0, m0[l.news[i]].pParent)
  }

  /** The parent once n dividers are in. */
  ghost function ParentWith(m0: Pager, l: Layout, n: nat): MemPage
    requires Ok(l) && n < |l.cnt| && l.par in m0
  {
    m0[l.par].(apCell := l.pre + Dividers(l, n) + l.post)
  }

  /** The memory after n rounds. */
  ghost predicate RoundsDone(m0: Pager, m: Pager, l: Layout, n: nat)
    requires Blank(m0, l) && n <= |l.cnt|
  {
    && (forall i | 0 <= i < n :: l.news[i] in m && m[l.news[i]] == FilledPage(m0, l, i))
    && (forall i | n <= i < |l.cnt| :: l.news[i] in m && m[l.news[i]] == m0[l.news[i]])
    && l.par in m && m[l.par] == ParentWith(m0, l, if n < |l.cnt| then n else n - 1)
    && forall q | q in m0 && q != l.par && q !in l.news :: q in m && m[q] == m0[q]
  }

  /** What one round does: page n is filled, and unless it is the last its divider inserted. */
  ghost function AfterRound(m0: Pager, m: Pager, l: Layout, n: nat): Pager
    requires Blank(m0, l) && n < |l.cnt|
  {
    var m1 := m[l.news[n] := FilledPage(m0, l, n)];
    if n + 1 < |l.cnt| then m1[l.par := ParentWith(m0, l, n + 1)] else m1
  }

  lemma RoundsStart(m0: Pager, l: Layout)
    requires Blank(m0, l)
    ensures RoundsDone(m0, m0, l, 0)
  {
    assert l.pre + Dividers(l, 0) + l.post == l.pre + l.post;
  }

  lemma RoundsStep(m0: Pager, m: Pager, l: Layout, n: nat)
    requires Blank(m0, l) && n < |l.cnt| && RoundsDone(m0, m, l, n)
    ensures RoundsDone(m0, AfterRound(m0, m, l, n), l, n + 1)
  {
    var m2 := AfterRound(m0, m, l, n);
    assert l.news[n] in l.news;
    forall i | 0 <= i < |l.cnt| && i != n ensures l.news[i] != l.par && m2[l.news[i]] == m[l.news[i]] {
      assert l.news[i] in l.news;
    }
  }

  /** The last page's right child and the parent's link to it. */
  ghost function Linked(m: Pager, l: Layout, c: Ctx): Pager
    requires Ok(l) && !c.Top? && LastOf(l) in m
  {
    m[LastOf(l) := m[LastOf(l)].(rightChild := l.tail)][l.par := NewParent(l, c)]
  }

  /** After the last round and the links, the group is dealt out. */
  lemma AllDealt(m: Pager, m0: Pager, m1: Pager, l: Layout, c: Ctx, olds: seq<Pgno>)
    requires Blank(m0, l) && RoundsDone(m0, m1, l, |l.cnt|) && !c.Top? && l.par == c.pg
    requires forall q | q in m && q != c.pg && q !in olds && q !in l.news :: q in m0 && m0[q] == m[q]
    ensures LastOf(l) in m1 && Dealt(m, Linked(m1, l, c), l, c, olds)
  {
    var n := |l.cnt| - 1;
    assert l.news[n] in m1;
    var m2 := Linked(m1, l, c);
    assert forall i | 0 <= i < n :: l.news[i] != l.news[n];
    forall i | 0 <= i < |l.cnt| ensures LaidAt(m2, l, i) {
      assert l.news[i] in l.news;
      assert m1[l.news[i]] == FilledPage(m0, l, i);
    }
    forall q ensures Kept(m, m2, q, c.pg, olds, l.news) {
      assert LastOf(l) in l.news;
    }
  }

  /** The parent's link to the group's last page, which still names x. */
  ghost predicate Hole(m0: Pager, l: Layout, c: Ctx, x: Pgno) {
    && !c.Top? && l.par == c.pg && l.par in m0
    && l.post == (if c.InCell? then [Cell(x, c.item)] + c.rest else [])
    && (c.InCell? ==> m0[l.par].rightChild == c.right) && m0[l.par].pParent == Par(c.up)
  }

  lemma Relinked(m0: Pager, l: Layout, c: Ctx, x: Pgno)
    requires Blank(m0, l) && Hole(m0, l, c, x)
    ensures var pg, n := ParentWith(m0, l, |l.cnt| - 1), |l.pre| + |l.cnt| - 1;
      && n <= |pg.apCell|
      && (n == |pg.apCell| <==> c.AtRight?)
      && (n < |pg.apCell| ==> pg.(apCell := pg.apCell[n := pg.apCell[n].(leftChild := LastOf(l))]) == NewParent(l, c))
      && (n == |pg.apCell| ==> pg.(rightChild := LastOf(l)) == NewParent(l, c))
  {
    var divs := Dividers(l, |l.cnt| - 1);
    if c.InCell? {
      var s := l.pre + divs + l.post;
      assert s[|l.pre| + |divs| := Cell(LastOf(l), c.item)] == l.pre + divs + [Cell(LastOf(l), c.item)] + c.rest;
    } else {
      assert l.pre + divs + l.post == l.pre + divs;
    }
  }

  /** The page with its link to child n set to q. */
  function WithLink(page: MemPage, n: nat, q: Pgno): MemPage
    requires n <= |page.apCell|
  {
    if n == |page.apCell| then page.(rightChild := q)
    else page.(apCell := page.apCell[n := page.apCell[n].(leftChild := q)])
  }

  /** The links to the last page, after all rounds. */
  lemma LinksToLast(m0: Pager, m: Pager, l: Layout, c: Ctx, x: Pgno)
    requires Blank(m0, l) && Hole(m0, l, c, x) && RoundsDone(m0, m, l, |l.cnt|)
    ensures LastOf(l) in m && l.par in m && LastOf(l) != l.par && |l.pre| + |l.cnt| - 1 <= |m[l.par].apCell|
    ensures WithLink(m[l.par], |l.pre| + |l.cnt| - 1, LastOf(l)) == NewParent(l, c)
  {
    Relinked(m0, l, c, x);
    assert l.news[|l.cnt| - 1] in l.news && l.news[|l.cnt| - 1] in m;
    assert m[l.par] == ParentWith(m0, l, |l.cnt| - 1);
  }
}

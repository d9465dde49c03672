/** The place that a page remembers to have in its parent (btree.c: idxParent), so that nobody has to search for it. */
module BtreeIndex {
  import opened FileFormat
  import opened BtreeShape
  import opened BtreeGather
  import opened BtreeSiblings
  import opened BtreeLayout
  import opened BtreeAdopt
  import opened BtreeSettle
  import opened BtreeGroup
  import opened BtreeDeal
  import opened BtreeRoot
  import opened BalanceSplit

  /** What the pages remember. */
  type Places = map<Pgno, nat>

  /** q, if it is a page that has p for its parent, remembers place l. */
  ghost predicate Remembers(m: Pager, ix: Places, p: Pgno, q: Pgno, l: nat) {
    q != 0 && q in m && m[q].pParent == p ==> q in ix && ix[q] == l
  }

  /** So do the first n children of a page that is to be page p. */
  ghost predicate Told(m: Pager, ix: Places, p: Pgno, page: MemPage, n: nat) {
    forall l: nat | l < n && l <= |page.apCell| :: Remembers(m, ix, p, Child(page, l), l)
  }

  ghost predicate AllTold(m: Pager, ix: Places, p: Pgno)
    requires p in m
  {
    forall l: nat | l <= |m[p].apCell| :: Remembers(m, ix, p, Child(m[p], l), l)
  }

  /** Children remember their true places, but for those of pages in work. */
  ghost predicate Indexed(m: Pager, ix: Places, work: set<Pgno>) {
    forall p | p in m && p != 0 && p !in work :: AllTold(m, ix, p)
  }

  /** So what a page remembers is what a search of its parent would find. */
  lemma RememberedIsFound(m: Pager, ix: Places, work: set<Pgno>, par: Pgno, q: Pgno, l: nat)
    requires Indexed(m, ix, work) && par in m && par != 0 && par !in work && l <= |m[par].apCell|
    requires q == Child(m[par], l) && q != 0 && q in m && m[q].pParent == par
    ensures q in ix && ix[q] == l
  {
    assert AllTold(m, ix, par);
    assert Remembers(m, ix, par, q, l);
  }

  /** The children of a page of a tree know it for their parent. */
  ghost predicate Family(m: Pager, p: Pgno)
    requires p in m
  {
    forall l: nat | l <= |m[p].apCell| :: KnownChild(m, p, Child(m[p], l))
  }

  ghost predicate KnownChild(m: Pager, p: Pgno, q: Pgno) {
    q != 0 && q in m && m[q].pParent == p
  }

  lemma {:induction false} CellsKnow(m: Pager, cells: seq<Cell>, p: Pgno, h: nat, l: nat)
    requires h > 0 && CellsTree(m, cells, p, h) && l < |cells|
    ensures KnownChild(m, p, cells[l].leftChild)
    decreases l
  {
    if l > 0 { CellsKnow(m, cells[1..], p, h, l - 1); }
  }

  lemma FamilyAround(m: Pager, c: Ctx, pg: Pgno, h: nat)
    requires h > 0 && !c.Top? && CtxTree(m, c, pg, h) && KnownChild(m, c.pg, pg)
    ensures c.pg in m && Family(m, c.pg)
  {
    forall l: nat | l <= |m[c.pg].apCell| ensures KnownChild(m, c.pg, Child(m[c.pg], l)) {
      if l < |c.left| {
        CellsKnow(m, c.left, c.pg, h, l);
      } else if |c.left| < l < |m[c.pg].apCell| {
        CellsKnow(m, c.rest, c.pg, h, l - |c.left| - 1);
      }
    }
  }

  /** So telling them their places again changes nothing. */
  lemma ToldAgain(m: Pager, ix: Places, p: Pgno, l: nat)
    requires p in m && AllTold(m, ix, p) && l <= |m[p].apCell| && KnownChild(m, p, Child(m[p], l))
    ensures ix[Child(m[p], l) := l] == ix
  {
    assert Remembers(m, ix, p, Child(m[p], l), l);
  }

  lemma MoreInWork(m: Pager, ix: Places, work: set<Pgno>, more: set<Pgno>)
    requires Indexed(m, ix, work) && work <= more
    ensures Indexed(m, ix, more)
  {}

  // ---------------------------------------------------------------- children told one after the other

  lemma ChildrenAt(page: MemPage)
    ensures |Children(page)| == |page.apCell| + 1
    ensures forall l: nat | l <= |page.apCell| :: Children(page)[l] == Child(page, l)
  {
    LeftsAt(page.apCell);
  }

  function Noted(m: Pager, ix: Places, q: Pgno, l: nat): Places {
    if q != 0 && q in m then ix[q := l] else ix
  }

  /** Child number l of a page in work is told its parent and its place. */
  lemma OneTold(m: Pager, ix: Places, p: Pgno, page: MemPage, l: nat, work: set<Pgno>)
    requires l <= |page.apCell| && KidsApartFrom(Children(page)) && Told(m, ix, p, page, l)
    requires Indexed(m, ix, work) && p in work
    ensures var q := Child(page, l); var m1, ix1 := Adopted(m, [q], p), Noted(m, ix, q, l);
      Told(m1, ix1, p, page, l + 1) && Indexed(m1, ix1, work)
  {
    var q := Child(page, l);
    var m1, ix1 := Adopted(m, [q], p), Noted(m, ix, q, l);
    ChildrenAt(page);
    forall k: nat | k < l + 1 && k <= |page.apCell| ensures Remembers(m1, ix1, p, Child(page, k), k) {
      if k < l {
        assert Remembers(m, ix, p, Child(page, k), k);
        assert Children(page)[k] == Child(page, k) && Children(page)[l] == q;
      }
    }
    forall r | r in m1 && r != 0 && r !in work ensures AllTold(m1, ix1, r) {
      OthersTold(m, ix, p, q, l, r);
    }
  }

  lemma OthersTold(m: Pager, ix: Places, p: Pgno, q: Pgno, l: nat, r: Pgno)
    requires r in m && AllTold(m, ix, r) && r != p
    ensures AllTold(Adopted(m, [q], p), Noted(m, ix, q, l), r)
  {
    var m1 := Adopted(m, [q], p);
    forall k: nat | k <= |m1[r].apCell| ensures Remembers(m1, Noted(m, ix, q, l), r, Child(m1[r], k), k) {
      assert Child(m1[r], k) == Child(m[r], k);
      assert Remembers(m, ix, r, Child(m[r], k), k);
    }
  }

  /** When all its children have been told, the page is no longer in work. */
  lemma TellingEnds(m: Pager, ix: Places, p: Pgno, page: MemPage, n: nat, work: set<Pgno>)
    requires n == |page.apCell| + 1 && Told(m, ix, p, page, n) && Indexed(m, ix, work)
    requires p in m && m[p].apCell == page.apCell && m[p].rightChild == page.rightChild
    ensures Indexed(m, ix, work - {p})
  {
    forall l: nat | l <= |m[p].apCell| ensures Remembers(m, ix, p, Child(m[p], l), l) {
      assert Child(m[p], l) == Child(page, l);
    }
    forall r | r in m && r != 0 && r !in work - {p} ensures AllTold(m, ix, r) {
      assert r == p || r !in work;
    }
  }

  // ---------------------------------------------------------------- no child in two places

  /** The children of a page of a tree differ. */
  lemma TreeKidsApart(m: Pager, p: Pgno, par: Pgno, h: nat)
    requires h > 0 && Tree(m, p, par, h) && Once(Bag(m, p, h))
    ensures KidsApartFrom(Children(m[p]))
  {
    var row, tail := m[p].apCell, m[p].rightChild;
    assert Bag(m, p, h) == multiset{p} + KidsBag(m, row, tail, h - 1);
    OnceParts(multiset{p}, KidsBag(m, row, tail, h - 1));
    TreesAreAny(m, row, p, h - 1);
    TreeIsAny(m, tail, p, h - 1);
    KidsAreApart(m, row, tail, h - 1);
  }

  /** Neither do the children of a new page, which are some of the group's. */
  lemma SliceApart(m: Pager, l: Layout, i: int)
    requires Ok(l) && 0 <= i < |l.cnt| && LaidAt(m, l, i) && KidsApartFrom(Kids(l.row, l.tail))
    ensures KidsApartFrom(Children(m[l.news[i]]))
  {
    ChildrenAre(m, l, i);
    var kids, a := Children(m[l.news[i]]), Start(l.cnt, i);
    forall x, y | 0 <= x < y < |kids| && kids[x] != 0 ensures kids[x] != kids[y] {
      assert kids[x] == Kids(l.row, l.tail)[a + x] && kids[y] == Kids(l.row, l.tail)[a + y];
    }
  }

  // ---------------------------------------------------------------- what a round of balance does

  /** A page taken for a new sibling keeps its back pointer until it is told another; a new page has none. */
  ghost predicate BackAsBefore(m: Pager, m1: Pager, news: seq<Pgno>) {
    forall q | q in news :: q in m1 && m1[q].pParent == ParentOf(m, q)
  }

  /** Filling the pages and linking them does not touch back pointers. */
  lemma BackThroughDealing(m: Pager, m0: Pager, m1: Pager, l: Layout, c: Ctx)
    requires Blank(m0, l) && RoundsDone(m0, m1, l, |l.cnt|) && !c.Top? && LastOf(l) in m1 && BackAsBefore(m, m0, l.news)
    ensures BackAsBefore(m, Linked(m1, l, c), l.news)
  {
    var m2 := Linked(m1, l, c);
    forall q | q in l.news ensures q in m2 && m2[q].pParent == ParentOf(m, q) {
      var i :| 0 <= i < |l.news| && l.news[i] == q;
      assert m1[l.news[i]] == FilledPage(m0, l, i);
    }
  }

  /** The pages in work after dealing: the parent, and the new siblings from number n on. */
  function InHand(par: Pgno, news: seq<Pgno>, n: nat): set<Pgno>
    requires n <= |news|
  {
    {par} + set q | q in news[n..]
  }

  /** After dealing, all places but those below the parent and the new siblings are as remembered. */
  lemma DealtIndexed(m: Pager, m1: Pager, ix: Places, l: Layout, g: Ctx, olds: seq<Pgno>, x: Pgno, pg: Pgno)
    requires Indexed(m, ix, {pg}) && pg in olds && !g.Top? && g.pg in m && m[g.pg] == ParentPage(g, x)
    requires Dealt(m, m1, l, g, olds) && Renumbered(m, m1, olds, l.news) && BackAsBefore(m, m1, l.news)
    ensures Indexed(m1, ix, InHand(g.pg, l.news, 0))
  {
    assert l.news[0..] == l.news;
    forall p | p in m1 && p != 0 && p !in InHand(g.pg, l.news, 0) ensures AllTold(m1, ix, p) {
      assert p !in l.news;
      assert Kept(m, m1, p, g.pg, olds, l.news);
      assert AllTold(m, ix, p);
      forall k: nat | k <= |m1[p].apCell| ensures Remembers(m1, ix, p, Child(m1[p], k), k) {
        assert Remembers(m, ix, p, Child(m[p], k), k);
        BackKept(m, m1, l, g, olds, x, Child(m[p], k));
      }
    }
  }

  lemma BackKept(m: Pager, m1: Pager, l: Layout, g: Ctx, olds: seq<Pgno>, x: Pgno, q: Pgno)
    requires !g.Top? && g.pg in m && m[g.pg] == ParentPage(g, x)
    requires Dealt(m, m1, l, g, olds) && Renumbered(m, m1, olds, l.news) && BackAsBefore(m, m1, l.news)
    ensures q in m1 ==> m1[q].pParent == ParentOf(m, q)
  {
    if q in m1 && q !in l.news && q != g.pg {
      assert q in m && q !in olds;
      assert Kept(m, m1, q, g.pg, olds, l.news);
    }
  }

  /** The next new sibling is done. */
  lemma OneLess(par: Pgno, news: seq<Pgno>, n: nat)
    requires n < |news|
    ensures InHand(par, news, n) - {news[n]} <= InHand(par, news, n + 1) && news[n] in InHand(par, news, n)
  {
    assert news[n..] == [news[n]] + news[n + 1..];
  }

  lemma NoneLeft(par: Pgno, news: seq<Pgno>)
    ensures InHand(par, news, |news|) == {par}
  {}

  // ---------------------------------------------------------------- the root's own cases

  /** The root's cells are on a page of their own, which is child number 0; it is in work until it is laid out again. */
  lemma DeepenedIndexed(m: Pager, ix: Places, root: Pgno, child: Pgno)
    requires Indexed(m, ix, {}) && root in m && child !in m && child != 0 && root != 0 && m[root].pParent == 0
    ensures Indexed(Deepened(m, root, child), ix[child := 0], {child})
  {
    var m1, ix1 := Deepened(m, root, child), ix[child := 0];
    forall p | p in m1 && p != 0 && p != child ensures AllTold(m1, ix1, p) {
      assert AllTold(m, ix, p);
      forall k: nat | k <= |m1[p].apCell| ensures Remembers(m1, ix1, p, Child(m1[p], k), k) {
        if p != root { assert Remembers(m, ix, p, Child(m[p], k), k); }
      }
    }
  }

  /** The root has taken over its child's cells, whose children are to be told. */
  lemma TakenOver(m: Pager, ix: Places, root: Pgno, child: Pgno)
    requires Indexed(m, ix, {}) && root in m && child in m && m[root].pParent == 0
    ensures Indexed(m[root := m[child].(pParent := 0)], ix, {root})
  {
    var m1 := m[root := m[child].(pParent := 0)];
    forall p | p in m1 && p != 0 && p != root ensures AllTold(m1, ix, p) {
      assert AllTold(m, ix, p);
      forall k: nat | k <= |m1[p].apCell| ensures Remembers(m1, ix, p, Child(m1[p], k), k) {
        assert Remembers(m, ix, p, Child(m[p], k), k);
      }
    }
  }

  /** A page comes that nobody has for a child. */
  lemma OneNew(m: Pager, ix: Places, q: Pgno)
    requires Indexed(m, ix, {}) && q !in m
    ensures Indexed(m[q := MemPage([], 0, 0)], ix, {})
  {
    var m1 := m[q := MemPage([], 0, 0)];
    forall p | p in m1 && p != 0 ensures AllTold(m1, ix, p) {
      assert p != q ==> AllTold(m, ix, p);
      forall k: nat | k <= |m1[p].apCell| ensures Remembers(m1, ix, p, Child(m1[p], k), k) {
        assert p != q ==> Remembers(m, ix, p, Child(m[p], k), k);
      }
    }
  }

  /** A page goes. */
  lemma OneGone(m: Pager, ix: Places, work: set<Pgno>, q: Pgno)
    requires Indexed(m, ix, work)
    ensures Indexed(m - {q}, ix, work)
  {
    var m1 := m - {q};
    forall p | p in m1 && p != 0 && p !in work ensures AllTold(m1, ix, p) {
      assert AllTold(m, ix, p);
      forall k: nat | k <= |m1[p].apCell| ensures Remembers(m1, ix, p, Child(m1[p], k), k) {
        assert Remembers(m, ix, p, Child(m[p], k), k);
      }
    }
  }

  // ---------------------------------------------------------------- the cursor's steps

  /** A page's cells may change as long as its children stay. */
  lemma SameChildren(m: Pager, ix: Places, p: Pgno, page: MemPage)
    requires Indexed(m, ix, {}) && p in m && page.pParent == m[p].pParent && |page.apCell| == |m[p].apCell|
    requires forall l: nat | l <= |page.apCell| :: Child(page, l) == Child(m[p], l)
    ensures Indexed(m[p := page], ix, {})
  {
    var m1 := m[p := page];
    forall r | r in m1 && r != 0 ensures AllTold(m1, ix, r) {
      assert AllTold(m, ix, r);
      forall k: nat | k <= |m1[r].apCell| ensures Remembers(m1, ix, r, Child(m1[r], k), k) {
        assert Remembers(m, ix, r, Child(m[r], k), k);
      }
    }
  }

  /** A page without children can change as it likes. */
  lemma NoChildren(m: Pager, ix: Places, p: Pgno, page: MemPage)
    requires Indexed(m, ix, {}) && p in m && page.pParent == m[p].pParent
    requires forall l: nat | l <= |page.apCell| :: Child(page, l) == 0
    ensures Indexed(m[p := page], ix, {})
  {
    var m1 := m[p := page];
    forall r | r in m1 && r != 0 ensures AllTold(m1, ix, r) {
      assert AllTold(m, ix, r);
      forall k: nat | k <= |m1[r].apCell| ensures Remembers(m1, ix, r, Child(m1[r], k), k) {
        assert r != p ==> Remembers(m, ix, r, Child(m[r], k), k);
      }
    }
  }
}

/** The root's own cases: an overfull root gets a level below it, an empty one gives a level up. */
module BtreeRoot {
  import opened FileFormat
  import opened BtreeShape
  import opened BtreeGather
  import opened BtreeSiblings
  import opened BtreeResettled
  import opened BtreeLayout
  import opened BtreeAdopt
  import opened BtreeSettle
  import opened BtreeSound
  import opened BtreeGroup

  // ---------------------------------------------------------------- deeper

  /** The root's content moves to the new page child; the root keeps only the link to it. */
  function Deepened(m: Pager, root: Pgno, child: Pgno): Pager
    requires root in m
  {
    m[child := m[root].(pParent := root)][root := MemPage([], child, 0)]
  }

  lemma OnceRoot(root: Pgno, rest: multiset<Pgno>)
    requires Once(multiset{root} + rest)
    ensures root !in rest
  {
    assert (multiset{root} + rest)[root] == 1 + rest[root];
    assert root in multiset{root} + rest;
  }

  /** Below the root: known pages, the root not among them. */
  lemma BelowRoot(m: Pager, root: Pgno, h: nat)
    requires h > 0 && At(m, Top, root, h)
    ensures var kb := KidsBag(m, m[root].apCell, m[root].rightChild, h - 1);
      && Pages(m, Top, root, h) == multiset{root} + kb && Once(multiset{root} + kb) && Known(kb, m) && root !in kb
  {
    var kb := KidsBag(m, m[root].apCell, m[root].rightChild, h - 1);
    KidsKnown(m, m[root].apCell, m[root].rightChild, h - 1);
    assert Bag(m, root, h) == multiset{root} + kb;
    assert Pages(m, Top, root, h) == multiset{root} + kb;
    OnceRoot(root, kb);
  }

  lemma KidsFrame(m: Pager, m1: Pager, row: seq<Cell>, tail: Pgno, par: Pgno, h: nat)
    requires CellsTree(m, row, par, h) && Tree(m, tail, par, h) && SameOn(KidsBag(m, row, tail, h), m, m1)
    ensures CellsTree(m1, row, par, h) && Tree(m1, tail, par, h) && KidsBag(m1, row, tail, h) == KidsBag(m, row, tail, h)
    ensures CellsOrder(m1, row, h) == CellsOrder(m, row, h) && InOrder(m1, tail, h) == InOrder(m, tail, h)
  {
    SameOnParts(CellsBag(m, row, h), Bag(m, tail, h), multiset{}, m, m1);
    CellsFrame(m, m1, row, par, h);
    Frame(m, m1, tail, par, h);
  }

  lemma DeepenedKids(m: Pager, root: Pgno, child: Pgno, h: nat)
    requires h > 0 && At(m, Top, root, h) && child !in m && child != 0
    ensures var row, tail, m1 := m[root].apCell, m[root].rightChild, Deepened(m, root, child);
      && CellsTree(m1, row, root, h - 1) && Tree(m1, tail, root, h - 1)
      && KidsBag(m1, row, tail, h - 1) == KidsBag(m, row, tail, h - 1)
      && CellsOrder(m1, row, h - 1) == CellsOrder(m, row, h - 1) && InOrder(m1, tail, h - 1) == InOrder(m, tail, h - 1)
  {
    BelowRoot(m, root, h);
    KidsFrame(m, Deepened(m, root, child), m[root].apCell, m[root].rightChild, root, h - 1);
  }

  lemma DeepenedLoose(m: Pager, root: Pgno, child: Pgno, h: nat)
    requires h > 0 && root in m && root != 0 && child !in m && child != 0
    requires CellsTree(Deepened(m, root, child), m[root].apCell, root, h - 1)
    requires Tree(Deepened(m, root, child), m[root].rightChild, root, h - 1)
    ensures Loose(Deepened(m, root, child), child, root, h)
    ensures CtxTree(Deepened(m, root, child), AtRight(Top, root, []), child, h)
  {
    var m1 := Deepened(m, root, child);
    TreesAreAny(m1, m[root].apCell, root, h - 1);
    TreeIsAny(m1, m[root].rightChild, root, h - 1);
  }

  lemma DeepenedEntries(m: Pager, root: Pgno, child: Pgno, h: nat)
    requires h > 0 && root in m && child !in m
    requires var row, tail, m1 := m[root].apCell, m[root].rightChild, Deepened(m, root, child);
      CellsOrder(m1, row, h - 1) == CellsOrder(m, row, h - 1) && InOrder(m1, tail, h - 1) == InOrder(m, tail, h - 1)
    ensures Entries(Deepened(m, root, child), AtRight(Top, root, []), child, h) == Entries(m, Top, root, h)
  {
    var m1, c := Deepened(m, root, child), AtRight(Top, root, []);
    assert InOrder(m1, child, h) == InOrder(m, root, h);
    assert Before(m1, c, h) == [] && After(m1, c, h) == [];
  }

  /** The deepened tree has the same entries, one more page, and can be balanced at the new page. */
  lemma DeepenedHolds(m: Pager, root: Pgno, child: Pgno, h: nat)
    requires h > 0 && At(m, Top, root, h) && child !in m && child != 0
    ensures var m1, c := Deepened(m, root, child), AtRight(Top, root, []);
      && Balanceable(m1, c, child, h) && Entries(m1, c, child, h) == Entries(m, Top, root, h)
      && Pages(m1, c, child, h) == Pages(m, Top, root, h) + multiset{child}
  {
    DeepenedKids(m, root, child, h);
    DeepenedLoose(m, root, child, h);
    DeepenedEntries(m, root, child, h);
    DeepenedPages(m, root, child, h);
    DeepenedOnce(m, root, child, h);
  }

  lemma DeepenedPages(m: Pager, root: Pgno, child: Pgno, h: nat)
    requires h > 0 && root in m && child !in m
    requires var row, tail, m1 := m[root].apCell, m[root].rightChild, Deepened(m, root, child);
      KidsBag(m1, row, tail, h - 1) == KidsBag(m, row, tail, h - 1)
    ensures Pages(Deepened(m, root, child), AtRight(Top, root, []), child, h) == Pages(m, Top, root, h) + multiset{child}
  {
    var row, tail, m1 := m[root].apCell, m[root].rightChild, Deepened(m, root, child);
    var kb := KidsBag(m, row, tail, h - 1);
    assert Bag(m1, child, h) == multiset{child} + kb;
    assert Bag(m, root, h) == multiset{root} + kb;
    assert CtxBag(m1, AtRight(Top, root, []), h) == multiset{root};
  }

  lemma DeepenedOnce(m: Pager, root: Pgno, child: Pgno, h: nat)
    requires h > 0 && At(m, Top, root, h) && child !in m
    ensures Once(Pages(m, Top, root, h) + multiset{child})
  {
    var b := Pages(m, Top, root, h);
    BagKnown(m, root, h);
    forall q | q in b + multiset{child} ensures (b + multiset{child})[q] == 1 {
      assert q in b ==> q in Bag(m, root, h);
    }
  }

  lemma DeepenedSound(m: Pager, root: Pgno, child: Pgno, b: multiset<Pgno>)
    requires root in m && child !in m && SoundBut(m, b, {root}, root)
    ensures SoundBut(Deepened(m, root, child), b + multiset{child}, {child, root}, root)
  {
    var m1 := Deepened(m, root, child);
    forall q | q in b + multiset{child} && q !in {child, root} ensures SoundAt(m1, q, root) {
      assert q in b && SoundAt(m, q, root);
    }
  }

  lemma DeepenedConserves(m: Pager, root: Pgno, child: Pgno, b: multiset<Pgno>)
    requires root in m && root in b && child !in m
    ensures Conserved(m, b, Deepened(m, root, child), b + multiset{child})
  {}

  // ---------------------------------------------------------------- flatter

  /** The root takes over its only child's content, and the child's page is freed. */
  function Flattened(m: Pager, root: Pgno, child: Pgno): Pager
    requires child in m
  {
    Adopted(m[root := m[child].(pParent := 0)], Children(m[child]), root) - {child}
  }

  /** A root without cells over a child: the child is a tree, and all below the root. */
  lemma EmptyRoot(m: Pager, root: Pgno, h: nat)
    requires h > 0 && At(m, Top, root, h) && m[root].apCell == [] && m[root].rightChild != 0
    ensures var child := m[root].rightChild;
      && h > 1 && Tree(m, child, root, h - 1)
      && AnyTrees(m, m[child].apCell, h - 2) && AnyTree(m, m[child].rightChild, h - 2)
  {
    var child := m[root].rightChild;
    assert Tree(m, child, root, h - 1);
    TreesAreAny(m, m[child].apCell, child, h - 2);
    TreeIsAny(m, m[child].rightChild, child, h - 2);
  }

  lemma EmptyRootPages(m: Pager, root: Pgno, h: nat)
    requires h > 1 && root in m && m[root].apCell == [] && m[root].rightChild in m
    ensures var child := m[root].rightChild;
      Pages(m, Top, root, h)
        == multiset{root} + multiset{} + multiset([child]) + KidsBag(m, m[child].apCell, m[child].rightChild, h - 2)
  {
    var child := m[root].rightChild;
    var kb := KidsBag(m, m[child].apCell, m[child].rightChild, h - 2);
    assert multiset([child]) == multiset{child};
    assert Bag(m, child, h - 1) == multiset{child} + kb;
    assert Bag(m, root, h) == multiset{root} + multiset{} + (multiset{child} + kb);
  }

  lemma EmptyRootEntries(m: Pager, root: Pgno, h: nat)
    requires h > 1 && root in m && m[root].apCell == [] && m[root].rightChild in m
    ensures var child := m[root].rightChild;
      Entries(m, Top, root, h) == CellsOrder(m, m[child].apCell, h - 2) + InOrder(m, m[child].rightChild, h - 2)
  {
    var child := m[root].rightChild;
    assert InOrder(m, root, h) == CellsOrder(m, [], h - 1) + InOrder(m, child, h - 1);
    assert InOrder(m, root, h) == InOrder(m, child, h - 1);
    assert Before(m, Top, h) == [] && After(m, Top, h) == [];
  }

  /** Only the root, its child and the child's children are touched. */
  lemma FlattenedEffect(m: Pager, root: Pgno, child: Pgno)
    requires child in m && root in m && child != root
    ensures Effect(m, Flattened(m, root, child), root, [child], [], Children(m[child]))
    ensures Supplied(m, [child], [])
  {}

  lemma FlattenedAdopts(m: Pager, root: Pgno, child: Pgno, h: nat)
    requires h > 1 && child in m && root in m && child != root
    requires var row, tail := m[child].apCell, m[child].rightChild;
      && AnyTrees(m, row, h - 2) && AnyTree(m, tail, h - 2)
      && Once(multiset{root} + multiset{} + multiset([child]) + KidsBag(m, row, tail, h - 2))
    ensures var m1 := Flattened(m, root, child);
      forall q | q in Children(m[child]) && q != 0 :: h > 2 && OnlyParent(m, m1, q) && m1[q].pParent == root
  {
    var row, tail := m[child].apCell, m[child].rightChild;
    forall q | q in Children(m[child]) && q != 0
      ensures h > 2 && OnlyParent(m, Flattened(m, root, child), q) && Flattened(m, root, child)[q].pParent == root
    {
      KidCounted(m, row, tail, h - 2, q);
      KidsKnown(m, row, tail, h - 2);
      PartsApart(root, multiset{}, [child], KidsBag(m, row, tail, h - 2), q);
    }
  }

  lemma FlattenedTree(m1: Pager, root: Pgno, row: seq<Cell>, tail: Pgno, h: nat)
    requires root != 0 && root in m1 && m1[root] == MemPage(row, tail, 0)
    requires AnyTrees(m1, row, h) && AnyTree(m1, tail, h)
    requires forall q | q in Kids(row, tail) && q != 0 :: q in m1 && m1[q].pParent == root
    ensures Tree(m1, root, 0, h + 1)
  {
    if h > 0 {
      KidsReal(m1, row, h);
      LeftsAt(row);
      forall i | 0 <= i < |row| ensures ParentOf(m1, row[i].leftChild) == root {
        assert Lefts(row)[i] in Kids(row, tail);
      }
    }
    OwnedIfAll(m1, row, root, h);
    OwnedTrees(m1, row, root, h);
  }

  /** A root over one child, whose own children are trees, no page twice. */
  ghost predicate Flattenable(m: Pager, root: Pgno, child: Pgno, h: nat)
    requires h > 1
  {
    && root != 0 && child in m && root in m && child != root
    && AnyTrees(m, m[child].apCell, h - 2) && AnyTree(m, m[child].rightChild, h - 2)
    && Once(multiset{root} + multiset{} + multiset([child]) + KidsBag(m, m[child].apCell, m[child].rightChild, h - 2))
  }

  lemma FlattenedKids(m: Pager, root: Pgno, child: Pgno, h: nat)
    requires h > 1 && Flattenable(m, root, child, h)
    ensures var row, tail, m1 := m[child].apCell, m[child].rightChild, Flattened(m, root, child);
      && AnyTrees(m1, row, h - 2) && AnyTree(m1, tail, h - 2)
      && KidsBag(m1, row, tail, h - 2) == KidsBag(m, row, tail, h - 2)
      && CellsOrder(m1, row, h - 2) + InOrder(m1, tail, h - 2) == CellsOrder(m, row, h - 2) + InOrder(m, tail, h - 2)
  {
    var row, tail := m[child].apCell, m[child].rightChild;
    FlattenedEffect(m, root, child);
    FlattenedAdopts(m, root, child, h);
    ResettledKids(m, Flattened(m, root, child), root, multiset{}, [child], [], row, tail, h - 2);
  }

  lemma FlattenedRoot(m: Pager, root: Pgno, child: Pgno, h: nat)
    requires h > 1 && Flattenable(m, root, child, h)
    ensures root in Flattened(m, root, child)
    ensures Flattened(m, root, child)[root] == MemPage(m[child].apCell, m[child].rightChild, 0)
    ensures Tree(Flattened(m, root, child), root, 0, h - 1)
  {
    var row, tail := m[child].apCell, m[child].rightChild;
    if root in Children(m[child]) {
      KidCounted(m, row, tail, h - 2, root);
      PartsApart(root, multiset{}, [child], KidsBag(m, row, tail, h - 2), root);
      assert false;
    }
    FlattenedAdopts(m, root, child, h);
    FlattenedKids(m, root, child, h);
    FlattenedTree(Flattened(m, root, child), root, row, tail, h - 2);
  }

  /** One level less, one page less, the same entries. */
  lemma FlattenedHolds(m: Pager, root: Pgno, child: Pgno, h: nat)
    requires h > 1 && Flattenable(m, root, child, h)
    ensures var m1, kb := Flattened(m, root, child), KidsBag(m, m[child].apCell, m[child].rightChild, h - 2);
      && At(m1, Top, root, h - 1) && Pages(m1, Top, root, h - 1) == multiset{root} + kb
      && Entries(m1, Top, root, h - 1) == CellsOrder(m, m[child].apCell, h - 2) + InOrder(m, m[child].rightChild, h - 2)
  {
    var m1, row, tail := Flattened(m, root, child), m[child].apCell, m[child].rightChild;
    FlattenedRoot(m, root, child, h);
    FlattenedKids(m, root, child, h);
    RootPages(m1, root, row, tail, h - 2);
    OnceLess(root, child, KidsBag(m, row, tail, h - 2));
  }

  lemma RootPages(m1: Pager, root: Pgno, row: seq<Cell>, tail: Pgno, h: nat)
    requires root in m1 && m1[root] == MemPage(row, tail, 0)
    ensures Pages(m1, Top, root, h + 1) == multiset{root} + KidsBag(m1, row, tail, h)
    ensures Entries(m1, Top, root, h + 1) == CellsOrder(m1, row, h) + InOrder(m1, tail, h)
  {
    assert Bag(m1, root, h + 1) == multiset{root} + KidsBag(m1, row, tail, h);
    assert Before(m1, Top, h + 1) == [] && After(m1, Top, h + 1) == [];
  }

  lemma OnceLess(root: Pgno, child: Pgno, kb: multiset<Pgno>)
    requires Once(multiset{root} + multiset{} + multiset([child]) + kb)
    ensures Once(multiset{root} + kb)
  {
    var b := multiset{root} + multiset{} + multiset([child]) + kb;
    forall q | q in multiset{root} + kb ensures (multiset{root} + kb)[q] == 1 {
      assert b[q] == multiset{root}[q] + multiset([child])[q] + kb[q];
      assert q in b;
    }
  }

  lemma FlattenedSound(m: Pager, root: Pgno, child: Pgno, h: nat)
    requires h > 1 && Flattenable(m, root, child, h)
    requires var kb := KidsBag(m, m[child].apCell, m[child].rightChild, h - 2);
      SoundBut(m, multiset{root} + multiset{} + multiset([child]) + kb, {root}, root)
    ensures var kb := KidsBag(m, m[child].apCell, m[child].rightChild, h - 2);
      Sound(Flattened(m, root, child), multiset{root} + kb, root)
  {
    var m1, row, tail := Flattened(m, root, child), m[child].apCell, m[child].rightChild;
    var kb := KidsBag(m, row, tail, h - 2);
    FlattenedRoot(m, root, child, h);
    FlattenedAdopts(m, root, child, h);
    forall q | q in multiset{root} + kb ensures SoundAt(m1, q, root) {
      var b := multiset{root} + multiset{} + multiset([child]) + kb;
      assert q in b && child in b;
      assert SoundAt(m, child, root);
      if q != root {
        assert SoundAt(m, q, root);
        OldsOnceHere(root, child, kb);
        assert q in Children(m[child]) && q != 0 ==> OnlyParent(m, m1, q);
      }
    }
  }

  lemma FlattenedConserves(m: Pager, root: Pgno, child: Pgno, h: nat)
    requires h > 1 && Flattenable(m, root, child, h)
    ensures var kb := KidsBag(m, m[child].apCell, m[child].rightChild, h - 2);
      Conserved(m, multiset{root} + multiset{} + multiset([child]) + kb, Flattened(m, root, child), multiset{root} + kb)
  {
    FlattenedEffect(m, root, child);
    RoundConserves(m, Flattened(m, root, child), root, multiset{}, [child], [], m[child].apCell, m[child].rightChild, h - 2);
    var kb := KidsBag(m, m[child].apCell, m[child].rightChild, h - 2);
    assert multiset{root} + multiset{} + kb + multiset([child]) == multiset{root} + multiset{} + multiset([child]) + kb;
    assert multiset{root} + multiset{} + kb + multiset([]) == multiset{root} + kb;
  }

  lemma OldsOnceHere(root: Pgno, child: Pgno, kb: multiset<Pgno>)
    requires Once(multiset{root} + multiset{} + multiset([child]) + kb)
    ensures root != child && root !in kb && child !in kb
  {
    var b := multiset{root} + multiset{} + multiset([child]) + kb;
    assert b[root] == multiset{root}[root] + multiset([child])[root] + kb[root];
    assert b[child] == multiset{root}[child] + multiset([child])[child] + kb[child];
    assert root in b && child in b;
  }
}

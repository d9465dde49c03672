/** One cell put on one page: the tree and its entries before balancing. */
module BtreeEdit {
  import opened FileFormat
  import opened Bytes
  import opened BtreeShape
  import opened BtreeSiblings
  import opened BtreeResettled
  import opened BtreeRoot
  import opened BtreePlaces

  /** The page's cells are replaced by others over the same subtrees. */
  function Rewritten(m: Pager, p: Pgno, cells: seq<Cell>): Pager
    requires p in m
  {
    m[p := m[p].(apCell := cells)]
  }

  lemma RewrittenKids(m: Pager, c: Ctx, p: Pgno, h: nat, cells: seq<Cell>)
    requires h > 0 && At(m, c, p, h)
    requires CellsTree(m, cells, p, h - 1) && CellsBag(m, cells, h - 1) == CellsBag(m, m[p].apCell, h - 1)
    ensures var m1, tail := Rewritten(m, p, cells), m[p].rightChild;
      && CellsTree(m1, cells, p, h - 1) && Tree(m1, tail, p, h - 1)
      && KidsBag(m1, cells, tail, h - 1) == KidsBag(m, cells, tail, h - 1)
      && CellsOrder(m1, cells, h - 1) == CellsOrder(m, cells, h - 1) && InOrder(m1, tail, h - 1) == InOrder(m, tail, h - 1)
  {
    var kb := KidsBag(m, m[p].apCell, m[p].rightChild, h - 1);
    KidsKnown(m, m[p].apCell, m[p].rightChild, h - 1);
    KidsNotSelf(m, c, p, h);
    assert SameOn(kb, m, Rewritten(m, p, cells));
    KidsFrame(m, Rewritten(m, p, cells), cells, m[p].rightChild, p, h - 1);
  }

  lemma KidsNotSelf(m: Pager, c: Ctx, p: Pgno, h: nat)
    requires h > 0 && At(m, c, p, h)
    ensures p !in KidsBag(m, m[p].apCell, m[p].rightChild, h - 1)
  {
    var kb := KidsBag(m, m[p].apCell, m[p].rightChild, h - 1);
    OnceParts(CtxBag(m, c, h), Bag(m, p, h));
    assert Bag(m, p, h) == multiset{p} + kb;
    OnceRoot(p, kb);
  }

  lemma RewrittenAround(m: Pager, c: Ctx, p: Pgno, h: nat, cells: seq<Cell>)
    requires h > 0 && At(m, c, p, h)
    ensures var m1 := Rewritten(m, p, cells);
      && CtxTree(m1, c, p, h) && CtxBag(m1, c, h) == CtxBag(m, c, h)
      && Before(m1, c, h) == Before(m, c, h) && After(m1, c, h) == After(m, c, h)
  {
    NotAround(m, c, p, h);
    CtxBagKnown(m, c, p, h);
    CtxFrame(m, Rewritten(m, p, cells), c, p, h);
  }

  lemma RewrittenBag(m: Pager, p: Pgno, h: nat, cells: seq<Cell>)
    requires h > 0 && p in m && CellsBag(m, cells, h - 1) == CellsBag(m, m[p].apCell, h - 1)
    requires KidsBag(Rewritten(m, p, cells), cells, m[p].rightChild, h - 1) == KidsBag(m, cells, m[p].rightChild, h - 1)
    ensures Bag(Rewritten(m, p, cells), p, h) == Bag(m, p, h)
  {
    var m1, tail := Rewritten(m, p, cells), m[p].rightChild;
    assert Bag(m1, p, h) == multiset{p} + KidsBag(m1, cells, tail, h - 1);
    assert Bag(m, p, h) == multiset{p} + KidsBag(m, m[p].apCell, tail, h - 1);
  }

  /** The same tree shape and pages, with the page's new entries among the old. */
  lemma RewrittenHolds(m: Pager, c: Ctx, p: Pgno, h: nat, cells: seq<Cell>, bag: multiset<Pgno>)
    requires h > 0 && At(m, c, p, h) && Pages(m, c, p, h) == bag
    requires CellsTree(m, cells, p, h - 1) && CellsBag(m, cells, h - 1) == CellsBag(m, m[p].apCell, h - 1)
    ensures Holds(Rewritten(m, p, cells), c, p, h,
      Before(m, c, h) + (CellsOrder(m, cells, h - 1) + InOrder(m, m[p].rightChild, h - 1)) + After(m, c, h), bag)
  {
    var m1 := Rewritten(m, p, cells);
    RewrittenKids(m, c, p, h, cells);
    RewrittenAround(m, c, p, h, cells);
    RewrittenBag(m, p, h, cells);
    PageHolds(m1, c, p, h, cells, m[p].rightChild, bag);
  }

  lemma PageHolds(m1: Pager, c: Ctx, p: Pgno, h: nat, cells: seq<Cell>, tail: Pgno, bag: multiset<Pgno>)
    requires h > 0 && p != 0 && p in m1 && m1[p] == MemPage(cells, tail, Par(c))
    requires CellsTree(m1, cells, p, h - 1) && Tree(m1, tail, p, h - 1) && CtxTree(m1, c, p, h)
    requires CtxBag(m1, c, h) + Bag(m1, p, h) == bag && Once(bag)
    ensures Holds(m1, c, p, h, Before(m1, c, h) + (CellsOrder(m1, cells, h - 1) + InOrder(m1, tail, h - 1)) + After(m1, c, h), bag)
  {}

  /** One cell's entry is replaced: the n-th. */
  lemma ReplacedHolds(m: Pager, m1: Pager, c: Ctx, p: Pgno, h: nat, a: nat, item: Payload, entries: seq<Payload>,
                      bag: multiset<Pgno>, n: nat, es: seq<Payload>)
    requires h > 0 && Holds(m, c, p, h, entries, bag) && p in m && a < |m[p].apCell|
    requires n == HiPos(m, c, p, h, a) && n < |entries| && es == entries[n := item]
    requires m1 == Rewritten(m, p, m[p].apCell[..a] + [Cell(m[p].apCell[a].leftChild, item)] + m[p].apCell[a + 1..])
    ensures Holds(m1, c, p, h, es, bag)
  {
    var cells := m[p].apCell;
    ReplacedCells(m, cells, a, item, p, h - 1);
    RewrittenHolds(m, c, p, h, cells[..a] + [Cell(cells[a].leftChild, item)] + cells[a + 1..], bag);
    ReplacedEntries(m, c, p, h, a, item, cells, entries, n, es);
  }

  lemma ReplacedEntries(m: Pager, c: Ctx, p: Pgno, h: nat, a: nat, item: Payload, cells: seq<Cell>, entries: seq<Payload>,
                        n: nat, es: seq<Payload>)
    requires h > 0 && p in m && m[p].apCell == cells && a < |cells| && entries == Entries(m, c, p, h)
    requires n == HiPos(m, c, p, h, a) && n < |entries| && es == entries[n := item]
    ensures es == Before(m, c, h)
      + (CellsOrder(m, cells[..a] + [Cell(cells[a].leftChild, item)] + cells[a + 1..], h - 1) + InOrder(m, m[p].rightChild, h - 1))
      + After(m, c, h)
  {
    OrderAround(m, cells, a, h - 1);
    OrderReplaced(m, cells, a, item, h - 1);
    PutAt(Before(m, c, h), CellsOrder(m, cells[..a], h - 1), InOrder(m, cells[a].leftChild, h - 1), cells[a].item, item,
          CellsOrder(m, cells[a + 1..], h - 1), InOrder(m, m[p].rightChild, h - 1), After(m, c, h), entries, n, es);
  }

  lemma PutAt<T>(b: seq<T>, l: seq<T>, i: seq<T>, x: T, y: T, r: seq<T>, t: seq<T>, f: seq<T>, whole: seq<T>, n: nat, es: seq<T>)
    requires whole == b + ((l + i + [x] + r) + t) + f && n == |b| + |l| + |i| && es == whole[n := y]
    ensures es == b + ((l + i + [y] + r) + t) + f
  {
    SpliceReplaced(b, l, i, x, y, r, t, f);
  }

  lemma ReplacedCells(m: Pager, cells: seq<Cell>, a: nat, item: Payload, par: Pgno, h: nat)
    requires a < |cells| && CellsTree(m, cells, par, h)
    ensures var cells1 := cells[..a] + [Cell(cells[a].leftChild, item)] + cells[a + 1..];
      CellsTree(m, cells1, par, h) && CellsBag(m, cells1, h) == CellsBag(m, cells, h)
  {
    var x := Cell(cells[a].leftChild, item);
    assert cells == cells[..a] + [cells[a]] + cells[a + 1..];
    CellsTreeConcat(m, cells[..a] + [cells[a]], cells[a + 1..], par, h);
    CellsTreeConcat(m, cells[..a], [cells[a]], par, h);
    CellsTreeConcat(m, cells[..a] + [x], cells[a + 1..], par, h);
    CellsTreeConcat(m, cells[..a], [x], par, h);
    OneCell(m, cells[a], par, h);
    OneCell(m, x, par, h);
    CellsBagConcat(m, cells[..a] + [cells[a]], cells[a + 1..], h);
    CellsBagConcat(m, cells[..a], [cells[a]], h);
    CellsBagConcat(m, cells[..a] + [x], cells[a + 1..], h);
    CellsBagConcat(m, cells[..a], [x], h);
  }

  lemma OrderReplaced(m: Pager, cells: seq<Cell>, a: nat, item: Payload, h: nat)
    requires a < |cells|
    ensures CellsOrder(m, cells[..a] + [Cell(cells[a].leftChild, item)] + cells[a + 1..], h)
         == CellsOrder(m, cells[..a], h) + InOrder(m, cells[a].leftChild, h) + [item] + CellsOrder(m, cells[a + 1..], h)
  {
    var x := Cell(cells[a].leftChild, item);
    CellsOrderConcat(m, cells[..a] + [x], cells[a + 1..], h);
    CellsOrderConcat(m, cells[..a], [x], h);
    OneCell(m, x, 0, h);
  }

  lemma SpliceReplaced<T>(b: seq<T>, l: seq<T>, i: seq<T>, x: T, y: T, r: seq<T>, t: seq<T>, a: seq<T>)
    ensures (b + ((l + i + [x] + r) + t) + a)[|b| + |l| + |i| := y] == b + ((l + i + [y] + r) + t) + a
  {}

  /** One cell is put on a leaf: its entry comes n-th. */
  lemma InsertedHolds(m: Pager, m1: Pager, c: Ctx, p: Pgno, a: nat, item: Payload, entries: seq<Payload>, bag: multiset<Pgno>,
                      n: nat, es: seq<Payload>)
    requires Holds(m, c, p, 1, entries, bag) && p in m && a <= |m[p].apCell|
    requires n == |Before(m, c, 1)| + a && n <= |entries| && es == entries[..n] + [item] + entries[n..]
    requires m1 == Rewritten(m, p, m[p].apCell[..a] + [Cell(0, item)] + m[p].apCell[a..])
    ensures Holds(m1, c, p, 1, es, bag)
  {
    var cells := m[p].apCell;
    InsertedCells(m, cells, a, item, p);
    RewrittenHolds(m, c, p, 1, cells[..a] + [Cell(0, item)] + cells[a..], bag);
    InsertedEntries(m, c, p, a, item, cells, entries, n, es);
  }

  lemma InsertedEntries(m: Pager, c: Ctx, p: Pgno, a: nat, item: Payload, cells: seq<Cell>, entries: seq<Payload>, n: nat,
                        es: seq<Payload>)
    requires p in m && m[p].apCell == cells && a <= |cells| && entries == Entries(m, c, p, 1)
    requires n == |Before(m, c, 1)| + a && n <= |entries| && es == entries[..n] + [item] + entries[n..]
    ensures es == Before(m, c, 1) + ((CellsOrder(m, cells[..a], 0) + [item] + CellsOrder(m, cells[a..], 0)) + InOrder(m, m[p].rightChild, 0))
                  + After(m, c, 1)
  {
    assert cells == cells[..a] + cells[a..];
    CellsOrderConcat(m, cells[..a], cells[a..], 0);
    LeafOrder(m, cells[..a]);
    var b, l, r, t, f := Before(m, c, 1), CellsOrder(m, cells[..a], 0), CellsOrder(m, cells[a..], 0), InOrder(m, m[p].rightChild, 0),
                         After(m, c, 1);
    SpliceAt(b, l, item, r, t, f, entries, n, es);
  }

  lemma SpliceAt<T>(b: seq<T>, l: seq<T>, x: T, r: seq<T>, t: seq<T>, f: seq<T>, whole: seq<T>, n: nat, es: seq<T>)
    requires whole == b + ((l + r) + t) + f && n == |b| + |l| && es == whole[..n] + [x] + whole[n..]
    ensures es == b + ((l + [x] + r) + t) + f
  {
    SpliceInserted(b, l, x, r, t, f);
  }

  lemma InsertedCells(m: Pager, cells: seq<Cell>, a: nat, item: Payload, par: Pgno)
    requires a <= |cells| && CellsTree(m, cells, par, 0)
    ensures var cells1 := cells[..a] + [Cell(0, item)] + cells[a..];
      && CellsTree(m, cells1, par, 0) && CellsBag(m, cells1, 0) == CellsBag(m, cells, 0)
      && CellsOrder(m, cells1, 0) == CellsOrder(m, cells[..a], 0) + [item] + CellsOrder(m, cells[a..], 0)
  {
    var x := Cell(0, item);
    assert cells == cells[..a] + cells[a..];
    CellsTreeConcat(m, cells[..a], cells[a..], par, 0);
    CellsTreeConcat(m, cells[..a] + [x], cells[a..], par, 0);
    CellsTreeConcat(m, cells[..a], [x], par, 0);
    CellsBagConcat(m, cells[..a], cells[a..], 0);
    CellsBagConcat(m, cells[..a] + [x], cells[a..], 0);
    CellsBagConcat(m, cells[..a], [x], 0);
    CellsOrderConcat(m, cells[..a] + [x], cells[a..], 0);
    CellsOrderConcat(m, cells[..a], [x], 0);
    OneCell(m, x, par, 0);
  }

  lemma SpliceInserted<T>(b: seq<T>, l: seq<T>, x: T, r: seq<T>, t: seq<T>, a: seq<T>)
    ensures var s, n := b + ((l + r) + t) + a, |b| + |l|; n <= |s| && s[..n] + [x] + s[n..] == b + ((l + [x] + r) + t) + a
  {}

  // ---------------------------------------------------------------- what an insert means

  /** The table with this one entry put in: in key order, with the new entry, and all old ones of other keys. */
  ghost predicate IsPut(entries: seq<Payload>, entries': seq<Payload>, item: Payload) {
    && SortedEntries(entries')
    && forall x :: x in entries' <==> x == item || (x in entries && x.key != item.key)
  }

  lemma PutReplaced(entries: seq<Payload>, r: nat, item: Payload)
    requires SortedEntries(entries) && r < |entries| && entries[r].key == item.key
    ensures IsPut(entries, entries[r := item], item)
  {
    var s := entries[r := item];
    forall x ensures x in s <==> x == item || (x in entries && x.key != item.key) {
      if x in entries && x.key != item.key {
        var i :| 0 <= i < |entries| && entries[i] == x;
        assert s[i] == x;
      }
      if x in s && x != item {
        var i :| 0 <= i < |s| && s[i] == x;
        SortedDistinct(entries, i, r);
      }
      assert s[r] == item;
    }
  }

  lemma SortedDistinct(entries: seq<Payload>, i: nat, j: nat)
    requires SortedEntries(entries) && i < |entries| && j < |entries| && i != j
    ensures entries[i].key != entries[j].key
  {
    FileKeyCompareSign(entries[i].key, entries[j].key);
    FileKeyCompareSign(entries[j].key, entries[i].key);
  }

  lemma PutInserted(entries: seq<Payload>, n: nat, item: Payload)
    requires SortedEntries(entries) && AllBelow(entries, n, item.key) && AllAbove(entries, n, item.key)
    ensures IsPut(entries, entries[..n] + [item] + entries[n..], item)
  {
    var s := entries[..n] + [item] + entries[n..];
    NotThere(entries, n, item.key);
    forall i, j | 0 <= i < j < |s| ensures Less(s[i].key, s[j].key) {
      assert i != n ==> s[i] == entries[if i < n then i else i - 1];
      assert j != n ==> s[j] == entries[if j < n then j else j - 1];
    }
    forall x ensures x in s <==> x == item || (x in entries && x.key != item.key) {
      assert s[n] == item;
      if x in entries {
        var i :| 0 <= i < |entries| && entries[i] == x;
        assert s[if i < n then i else i + 1] == x;
      }
    }
  }
}

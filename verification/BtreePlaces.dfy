/** Where a cell stands among all entries of its tree. */
module BtreePlaces {
  import opened FileFormat
  import opened Bytes
  import opened BtreeShape
  import opened BtreeGather
  import opened BtreeSettle

  /** How many entries come before child l of page p. */
  ghost function LoPos(m: Pager, c: Ctx, p: Pgno, h: nat, l: nat): nat
    requires h > 0 && p in m && l <= |m[p].apCell|
  {
    |Before(m, c, h)| + |CellsOrder(m, m[p].apCell[..l], h - 1)|
  }

  /** How many entries come before what follows child l: cell l, or the end of the page. */
  ghost function HiPos(m: Pager, c: Ctx, p: Pgno, h: nat, l: nat): nat
    requires h > 0 && p in m && l <= |m[p].apCell|
  {
    LoPos(m, c, p, h, l) + |InOrder(m, Child(m[p], l), h - 1)|
  }

  lemma OrderAround(m: Pager, cells: seq<Cell>, a: nat, h: nat)
    requires a < |cells|
    ensures CellsOrder(m, cells, h)
         == CellsOrder(m, cells[..a], h) + InOrder(m, cells[a].leftChild, h) + [cells[a].item] + CellsOrder(m, cells[a + 1..], h)
    ensures CellsOrder(m, cells[..a + 1], h) == CellsOrder(m, cells[..a], h) + InOrder(m, cells[a].leftChild, h) + [cells[a].item]
  {
    assert cells == cells[..a + 1] + cells[a + 1..];
    assert cells[..a + 1] == cells[..a] + [cells[a]];
    CellsOrderConcat(m, cells[..a + 1], cells[a + 1..], h);
    CellsOrderConcat(m, cells[..a], [cells[a]], h);
    OneCell(m, cells[a], 0, h);
  }

  /** The entry at a cell's place is the cell's. */
  lemma EntryAt(m: Pager, c: Ctx, p: Pgno, h: nat, a: nat)
    requires h > 0 && p in m && a < |m[p].apCell|
    ensures HiPos(m, c, p, h, a) < |Entries(m, c, p, h)|
    ensures Entries(m, c, p, h)[HiPos(m, c, p, h, a)] == m[p].apCell[a].item
    ensures LoPos(m, c, p, h, a + 1) == HiPos(m, c, p, h, a) + 1
  {
    var cells := m[p].apCell;
    OrderAround(m, cells, a, h - 1);
    SpliceAt(Before(m, c, h), CellsOrder(m, cells[..a], h - 1), InOrder(m, cells[a].leftChild, h - 1), m[p].apCell[a].item,
           CellsOrder(m, cells[a + 1..], h - 1), InOrder(m, m[p].rightChild, h - 1), After(m, c, h));
  }

  lemma SpliceAt<T>(b: seq<T>, l: seq<T>, i: seq<T>, x: T, r: seq<T>, t: seq<T>, a: seq<T>)
    ensures var s := b + ((l + i + [x] + r) + t) + a; |b| + |l| + |i| < |s| && s[|b| + |l| + |i|] == x
  {}

  /** The end of a page comes right before what follows the page. */
  lemma PageEnd(m: Pager, c: Ctx, p: Pgno, h: nat)
    requires h > 0 && p in m
    ensures HiPos(m, c, p, h, |m[p].apCell|) == |Before(m, c, h)| + |InOrder(m, p, h)|
  {
    assert m[p].apCell[..|m[p].apCell|] == m[p].apCell;
  }

  /** Seen from a child, the entries before it are those before its place. */
  lemma ChildBefore(m: Pager, c: Ctx, p: Pgno, h: nat, l: nat, c1: Ctx, h1: nat)
    requires h > 0 && p in m && l <= |m[p].apCell| && c1 == ChildCtx(c, p, m[p], l) && h1 == h - 1
    ensures |Before(m, c1, h1)| == LoPos(m, c, p, h, l)
  {
    assert m[p].apCell[..|m[p].apCell|] == m[p].apCell;
  }

  /** Seen from the parent, a page is one of its children; no other child has the same page. */
  lemma PlaceInParent(m: Pager, c: Ctx, p: Pgno, h: nat)
    requires h > 0 && !c.Top? && At(m, c, p, h)
    ensures c.pg in m && |c.left| <= |m[c.pg].apCell| && Child(m[c.pg], |c.left|) == p
    ensures m[c.pg].apCell[..|c.left|] == c.left && (|c.left| == |m[c.pg].apCell| <==> c.AtRight?)
    ensures forall i | 0 <= i < |c.left| :: m[c.pg].apCell[i].leftChild != p
    ensures HiPos(m, c.up, c.pg, h + 1, |c.left|) == |Before(m, c, h)| + |InOrder(m, p, h)|
  {
    NoneToTheLeft(m, c, p, h);
  }

  lemma NoneToTheLeft(m: Pager, c: Ctx, p: Pgno, h: nat)
    requires h > 0 && !c.Top? && At(m, c, p, h)
    ensures forall i | 0 <= i < |c.left| :: c.left[i].leftChild != p
  {
    NotAround(m, c, p, h);
    forall i | 0 <= i < |c.left| ensures c.left[i].leftChild != p {
      LeftAmong(c.left, i);
      LeftsOwned(m, c.left, c.pg, h, c.left[i].leftChild);
    }
  }

  lemma {:induction false} LeftAmong(cells: seq<Cell>, i: nat)
    requires i < |cells|
    ensures cells[i].leftChild in Lefts(cells)
    decreases |cells|
  {
    if i > 0 {
      assert cells[i] == cells[1..][i - 1];
      LeftAmong(cells[1..], i - 1);
    }
  }

  /** A page is not among those around it. */
  lemma NotAround(m: Pager, c: Ctx, p: Pgno, h: nat)
    requires h > 0 && At(m, c, p, h)
    ensures p !in CtxBag(m, c, h) && (!c.Top? ==> p !in CellsBag(m, c.left, h))
  {
    var b := CtxBag(m, c, h) + Bag(m, p, h);
    assert b[p] == CtxBag(m, c, h)[p] + Bag(m, p, h)[p];
    assert Bag(m, p, h)[p] >= 1;
    assert p in b;
    if !c.Top? { assert CtxBag(m, c, h)[p] >= CellsBag(m, c.left, h)[p]; }
  }

  /** Only pages above the leaves have children, and then every place has one. */
  lemma ChildHeight(m: Pager, c: Ctx, p: Pgno, h: nat, l: nat)
    requires h > 0 && At(m, c, p, h) && l <= |m[p].apCell|
    ensures Child(m[p], l) != 0 <==> h > 1
  {
    ChildInPlace(m, c, p, h - 1, l);
    assert Tree(m, Child(m[p], l), p, h - 1);
  }

  /** The tree seen from a child. */
  lemma ChildHolds(m: Pager, c: Ctx, p: Pgno, h: nat, l: nat, entries: seq<Payload>, bag: multiset<Pgno>)
    requires h > 0 && Holds(m, c, p, h, entries, bag) && l <= |m[p].apCell|
    ensures Holds(m, ChildCtx(c, p, m[p], l), Child(m[p], l), h - 1, entries, bag)
  {
    MoveDown(m, c, p, h - 1, l);
  }

  lemma LeafCell(m: Pager, c: Ctx, p: Pgno, h: nat, a: nat)
    requires h > 0 && At(m, c, p, h) && a <= |m[p].apCell| && Child(m[p], a) == 0
    ensures HiPos(m, c, p, h, a) == LoPos(m, c, p, h, a)
  {
    ChildHeight(m, c, p, h, a);
  }

  /** The tree seen from the parent. */
  lemma ParentHolds(m: Pager, c: Ctx, p: Pgno, h: nat, entries: seq<Payload>, bag: multiset<Pgno>)
    requires h > 0 && Holds(m, c, p, h, entries, bag) && p in m && m[p].pParent != 0
    ensures !c.Top? && m[p].pParent == c.pg && Holds(m, c.up, c.pg, h + 1, entries, bag) && Root(c.up, c.pg) == Root(c, p)
    ensures c.pg in m && |c.left| <= |m[c.pg].apCell|
    ensures forall i | 0 <= i < |c.left| :: m[c.pg].apCell[i].leftChild != p
    ensures |c.left| < |m[c.pg].apCell| ==> m[c.pg].apCell[|c.left|].leftChild == p
    ensures HiPos(m, c.up, c.pg, h + 1, |c.left|) == |Before(m, c, h)| + |InOrder(m, p, h)|
  {
    HoldsUp(m, c, p, h, entries, bag);
    PlaceInParent(m, c, p, h);
  }

  // ---------------------------------------------------------------- keys in order

  /** The entries before position n are below the key. */
  ghost predicate AllBelow(entries: seq<Payload>, n: nat, key: Blob) {
    n <= |entries| && forall i | 0 <= i < n :: Less(entries[i].key, key)
  }

  /** The entries from position n on are above the key. */
  ghost predicate AllAbove(entries: seq<Payload>, n: nat, key: Blob) {
    n <= |entries| && forall i | n <= i < |entries| :: Less(key, entries[i].key)
  }

  ghost predicate SortedEntries(entries: seq<Payload>) {
    forall i, j | 0 <= i < j < |entries| :: Less(entries[i].key, entries[j].key)
  }

  /** A cell below the key puts all entries up to it below the key. */
  lemma BelowFrom(entries: seq<Payload>, n: nat, key: Blob)
    requires SortedEntries(entries) && n < |entries| && Less(entries[n].key, key)
    ensures AllBelow(entries, n + 1, key)
  {
    forall i | 0 <= i < n + 1 ensures Less(entries[i].key, key) {
      if i < n { LessTransitive(entries[i].key, entries[n].key, key); }
    }
  }

  lemma AboveFrom(entries: seq<Payload>, n: nat, key: Blob)
    requires SortedEntries(entries) && n < |entries| && Less(key, entries[n].key)
    ensures AllAbove(entries, n, key)
  {
    forall i | n <= i < |entries| ensures Less(key, entries[i].key) {
      if i > n { LessTransitive(key, entries[n].key, entries[i].key); }
    }
  }

  /** Between two places with nothing between them the key is missing. */
  lemma NotThere(entries: seq<Payload>, n: nat, key: Blob)
    requires AllBelow(entries, n, key) && AllAbove(entries, n, key)
    ensures forall i | 0 <= i < |entries| :: entries[i].key != key
  {
    forall i | 0 <= i < |entries| ensures entries[i].key != key {
      FileKeyCompareSign(entries[i].key, key);
    }
  }

  /** The entries of a run of leaf cells. */
  lemma {:induction false} LeafOrder(m: Pager, cells: seq<Cell>)
    ensures |CellsOrder(m, cells, 0)| == |cells|
    decreases |cells|
  {
    if cells != [] { LeafOrder(m, cells[1..]); }
  }
}

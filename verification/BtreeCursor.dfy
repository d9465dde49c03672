/** The cursor of the file B-tree: walking the entries in order, and finding the place of a key. */
module BtreeCursor {
  import opened FileFormat
  import opened Bytes
  import opened BtreeShape
  import opened BtreeSound
  import opened BtreeRoom
  import opened BtreeTrack
  import opened BtreeIndex
  import opened BtreePlaces
  import opened BtreeGroup
  import opened BtreeEdit
  import opened Btree

  datatype Skip = SKIP_NONE | SKIP_NEXT | SKIP_PREV | SKIP_INVALID

  /** A page whose tree is sound holds a cell, unless the whole tree is empty. */
  lemma PageHasCells(m: Pager, c: Ctx, p: Pgno, h: nat, entries: seq<Payload>, bag: multiset<Pgno>, root: Pgno)
    requires h > 0 && Holds(m, c, p, h, entries, bag) && Sound(m, bag, root) && root == Root(c, p)
    ensures p in m && (m[p].rightChild != 0 <==> h > 1)
    ensures m[p].apCell == [] ==> c.Top? && h == 1 && entries == []
  {
    assert p in Bag(m, p, h);
    assert bag[p] >= Bag(m, p, h)[p];
    assert SoundAt(m, p, root);
    ChildHeight(m, c, p, h, |m[p].apCell|);
    if m[p].apCell == [] {
      RootHigh(m, c, p, h);
      assert Before(m, Top, h) == [] && After(m, Top, h) == [];
    }
  }

  lemma RootHigh(m: Pager, c: Ctx, p: Pgno, h: nat)
    requires h > 0 && At(m, c, p, h) && Root(c, p) == p
    ensures c.Top?
  {
    NotAround(m, c, p, h);
    if !c.Top? {
      RootInCtx(m, c, p, h);
      assert false;
    }
  }

  lemma {:induction false} RootInCtx(m: Pager, c: Ctx, p: Pgno, h: nat)
    requires !c.Top?
    ensures Root(c, p) in CtxBag(m, c, h)
    decreases c
  {
    InOneBag(Root(c, p), multiset{c.pg}, CellsBag(m, c.left, h), RestBag(m, c, h), CtxBag(m, c.up, h + 1));
    if !c.up.Top? { RootInCtx(m, c.up, c.pg, h + 1); }
  }

  lemma InOneBag(x: Pgno, a: multiset<Pgno>, b: multiset<Pgno>, d: multiset<Pgno>, e: multiset<Pgno>)
    ensures x in a || x in e ==> x in a + b + d + e
  {}

  /** Place idx on page p of a sound tree with this root, these entries and pages. */
  ghost predicate Placed(m: Pager, c: Ctx, p: Pgno, h: nat, idx: nat, entries: seq<Payload>, bag: multiset<Pgno>, root: Pgno) {
    h > 0 && Holds(m, c, p, h, entries, bag) && Sound(m, bag, root) && Root(c, p) == root != 0 && p in m && idx <= |m[p].apCell|
  }

  lemma HeldBelow(m: Pager, c: Ctx, p: Pgno, h: nat, idx: nat, entries: seq<Payload>, bag: multiset<Pgno>, q: Pgno, c1: Ctx, h1: int)
    requires h > 0 && Holds(m, c, p, h, entries, bag) && idx <= |m[p].apCell| && q == Child(m[p], idx) != 0
    requires c1 == ChildCtx(c, p, m[p], idx) && h1 == h - 1
    ensures h1 > 0 && Holds(m, c1, q, h1, entries, bag)
  {
    ChildHeight(m, c, p, h, idx);
    ChildHolds(m, c, p, h, idx, entries, bag);
  }

  lemma SpineBelow(c: Ctx, p: Pgno, page: MemPage, idx: nat, q: Pgno, c1: Ctx)
    requires c1 == ChildCtx(c, p, page, idx)
    ensures Spine(c1) == {p} + Spine(c) && Root(c1, q) == Root(c, p) && Par(c1) == p
  {}

  /** A page of the tree below the root is in memory, has a cell, and knows its parent. */
  lemma PageBelow(m: Pager, c1: Ctx, q: Pgno, h1: nat, entries: seq<Payload>, bag: multiset<Pgno>, root: Pgno, p: Pgno)
    requires h1 > 0 && Holds(m, c1, q, h1, entries, bag) && Sound(m, bag, root) && root == Root(c1, q) && p == Par(c1)
    ensures q in m && m[q].pParent == p && (!c1.Top? ==> |m[q].apCell| > 0 && p != 0)
  {
    PageHasCells(m, c1, q, h1, entries, bag, root);
    NoParent(m, c1, q, h1);
  }

  /** One level down: child q, and c1 around it. */
  lemma PlacedBelow(m: Pager, c: Ctx, p: Pgno, h: nat, idx: nat, entries: seq<Payload>, bag: multiset<Pgno>, root: Pgno,
                    q: Pgno, c1: Ctx, h1: int)
    requires Placed(m, c, p, h, idx, entries, bag, root) && q == Child(m[p], idx) != 0
    requires c1 == ChildCtx(c, p, m[p], idx) && h1 == h - 1
    ensures h1 > 0 && Placed(m, c1, q, h1, 0, entries, bag, root) && Spine(c1) == {p} + Spine(c) && p != 0
    ensures q in m && |m[q].apCell| > 0 && m[q].pParent == p
  {
    HeldBelow(m, c, p, h, idx, entries, bag, q, c1, h1);
    SpineBelow(c, p, m[p], idx, q, c1);
    PageBelow(m, c1, q, h1, entries, bag, root, p);
  }

  lemma PlacedAbove(m: Pager, c: Ctx, p: Pgno, h: nat, idx: nat, entries: seq<Payload>, bag: multiset<Pgno>, root: Pgno)
    requires Placed(m, c, p, h, idx, entries, bag, root) && m[p].pParent != 0
    ensures !c.Top? && m[p].pParent == c.pg && Placed(m, c.up, c.pg, h + 1, |c.left|, entries, bag, root)
    ensures HiPos(m, c.up, c.pg, h + 1, |c.left|) == |Before(m, c, h)| + |InOrder(m, p, h)|
  {
    ParentHolds(m, c, p, h, entries, bag);
  }

  lemma HasParent(m: Pager, c: Ctx, p: Pgno, h: nat, entries: seq<Payload>, bag: multiset<Pgno>)
    requires h > 0 && Holds(m, c, p, h, entries, bag) && p in m && m[p].pParent != 0
    ensures !c.Top? && m[p].pParent == c.pg && c.pg in m && CtxTree(m, c, p, h) && c.pg in Spine(c)
  {
    ParentHolds(m, c, p, h, entries, bag);
  }

  /** The end of the root page is the end of the entries. */
  lemma RootEnd(m: Pager, c: Ctx, p: Pgno, h: nat, entries: seq<Payload>, bag: multiset<Pgno>)
    requires h > 0 && Holds(m, c, p, h, entries, bag) && p in m && m[p].pParent == 0
    ensures |Before(m, c, h)| + |InOrder(m, p, h)| == |entries|
  {
    NoParent(m, c, p, h);
    assert After(m, c, h) == [];
  }

  /** Where the walk goes when a cell has been visited: the next child's start, or the end of the page. */
  lemma AfterCell(m: Pager, c: Ctx, p: Pgno, h: nat, a: nat, entries: seq<Payload>, bag: multiset<Pgno>, root: Pgno)
    requires Placed(m, c, p, h, a, entries, bag, root) && a < |m[p].apCell|
    ensures HiPos(m, c, p, h, a) < |entries| && entries[HiPos(m, c, p, h, a)] == m[p].apCell[a].item
    ensures LoPos(m, c, p, h, a + 1) == HiPos(m, c, p, h, a) + 1
    ensures Placed(m, c, p, h, a + 1, entries, bag, root)
  {
    EntryAt(m, c, p, h, a);
  }

  /** On a leaf nothing comes between the cells. */
  lemma LeafPlace(m: Pager, c: Ctx, p: Pgno, h: nat, a: nat, entries: seq<Payload>, bag: multiset<Pgno>, root: Pgno)
    requires Placed(m, c, p, h, a, entries, bag, root) && m[p].rightChild == 0
    ensures HiPos(m, c, p, h, a) == LoPos(m, c, p, h, a)
  {
    ChildHeight(m, c, p, h, |m[p].apCell|);
    ChildHeight(m, c, p, h, a);
    LeafCell(m, c, p, h, a);
  }

  /** The key's place is within page p: among its cells or below it. */
  ghost predicate Within(m: Pager, c: Ctx, p: Pgno, h: nat, entries: seq<Payload>, key: Blob) {
    AllBelow(entries, |Before(m, c, h)|, key) && AllAbove(entries, |Before(m, c, h)| + |InOrder(m, p, h)|, key)
  }

  /** The key's place is within child l of page p. */
  ghost predicate Between(m: Pager, c: Ctx, p: Pgno, h: nat, l: nat, entries: seq<Payload>, key: Blob)
    requires h > 0 && p in m && l <= |m[p].apCell|
  {
    AllBelow(entries, LoPos(m, c, p, h, l), key) && AllAbove(entries, HiPos(m, c, p, h, l), key)
  }

  /** Cells below and above the key right around the cells left, which the last cell compared is beside. */
  ghost predicate Bracketed(cells: seq<Cell>, idx: nat, lwr: nat, upr1: nat, cmp: int, key: Blob) {
    && lwr <= upr1 <= |cells| && Beside(|cells|, idx, lwr, upr1, cmp)
    && (lwr > 0 ==> Less(cells[lwr - 1].item.key, key)) && (upr1 < |cells| ==> Less(key, cells[upr1].item.key))
  }

  /** Nothing was compared yet, or the last cell compared is right beside the cells left. */
  predicate Beside(n: nat, idx: nat, lwr: nat, upr1: nat, cmp: int) {
    if lwr == 0 && upr1 == n then cmp == -1 && idx == 0 else idx < n && if cmp < 0 then lwr == idx + 1 else upr1 == idx
  }

  /** The cells around child l bound the entries below it. */
  lemma BracketedIsBetween(m: Pager, c: Ctx, p: Pgno, h: nat, idx: nat, l: nat, cmp: int, entries: seq<Payload>, key: Blob)
    requires h > 0 && p in m && Bracketed(m[p].apCell, idx, l, l, cmp, key)
    requires SortedEntries(entries) && Entries(m, c, p, h) == entries && Within(m, c, p, h, entries, key)
    ensures Between(m, c, p, h, l, entries, key)
  {
    BelowChild(m, c, p, h, l, entries, key);
    AboveChild(m, c, p, h, l, entries, key);
  }

  lemma BelowChild(m: Pager, c: Ctx, p: Pgno, h: nat, l: nat, entries: seq<Payload>, key: Blob)
    requires h > 0 && p in m && l <= |m[p].apCell| && (l > 0 ==> Less(m[p].apCell[l - 1].item.key, key))
    requires SortedEntries(entries) && Entries(m, c, p, h) == entries && AllBelow(entries, |Before(m, c, h)|, key)
    ensures AllBelow(entries, LoPos(m, c, p, h, l), key)
  {
    if l == 0 {
      assert m[p].apCell[..0] == [];
    } else {
      EntryAt(m, c, p, h, l - 1);
      BelowFrom(entries, HiPos(m, c, p, h, l - 1), key);
    }
  }

  lemma AboveChild(m: Pager, c: Ctx, p: Pgno, h: nat, l: nat, entries: seq<Payload>, key: Blob)
    requires h > 0 && p in m && l <= |m[p].apCell| && (l < |m[p].apCell| ==> Less(key, m[p].apCell[l].item.key))
    requires SortedEntries(entries) && Entries(m, c, p, h) == entries
    requires AllAbove(entries, |Before(m, c, h)| + |InOrder(m, p, h)|, key)
    ensures AllAbove(entries, HiPos(m, c, p, h, l), key)
  {
    if l == |m[p].apCell| {
      PageEnd(m, c, p, h);
    } else {
      EntryAt(m, c, p, h, l);
      AboveFrom(entries, HiPos(m, c, p, h, l), key);
    }
  }

  lemma ChildEnd(m: Pager, c: Ctx, p: Pgno, h: nat, l: nat, entries: seq<Payload>, key: Blob, q: Pgno, c1: Ctx, h1: nat)
    requires h > 0 && p in m && l <= |m[p].apCell| && Between(m, c, p, h, l, entries, key)
    requires q == Child(m[p], l) && c1 == ChildCtx(c, p, m[p], l) && h1 == h - 1
    ensures Within(m, c1, q, h1, entries, key)
  {
    ChildBefore(m, c, p, h, l, c1, h1);
  }

  lemma RootWithin(m: Pager, p: Pgno, h: nat, entries: seq<Payload>, bag: multiset<Pgno>, key: Blob)
    requires h > 0 && Holds(m, Top, p, h, entries, bag)
    ensures Within(m, Top, p, h, entries, key)
  {
    assert Before(m, Top, h) == [] && After(m, Top, h) == [];
  }

  /** On a leaf the search ends at the one place the key fits. */
  lemma LeafFound(m: Pager, c: Ctx, p: Pgno, h: nat, idx: nat, lwr: nat, entries: seq<Payload>, bag: multiset<Pgno>,
                  root: Pgno, key: Blob)
    requires Placed(m, c, p, h, idx, entries, bag, root) && lwr <= |m[p].apCell| && Child(m[p], lwr) == 0
    requires Between(m, c, p, h, lwr, entries, key)
    ensures h == 1 && (|m[p].apCell| == 0 <==> entries == [])
    ensures AllBelow(entries, |Before(m, c, h)| + lwr, key) && AllAbove(entries, |Before(m, c, h)| + lwr, key)
    ensures forall i | 0 <= i < |entries| :: entries[i].key != key
  {
    ChildHeight(m, c, p, h, lwr);
    LeafCell(m, c, p, h, lwr);
    LeafOrder(m, m[p].apCell[..lwr]);
    PageHasCells(m, c, p, h, entries, bag, root);
    NotThere(entries, |Before(m, c, h)| + lwr, key);
    if |m[p].apCell| > 0 { EntryAt(m, c, p, h, 0); }
  }

  /** A page's search is over: at the matching cell, or with one child left to look in, right beside the last cell compared. */
  ghost predicate Searched(m: Pager, c: Ctx, p: Pgno, h: nat, idx: nat, lwr: nat, cmp: int, entries: seq<Payload>, key: Blob) {
    h > 0 && p in m && lwr <= |m[p].apCell| &&
    if cmp == 0 then idx < |m[p].apCell| && m[p].apCell[idx].item.key == key
    else Beside(|m[p].apCell|, idx, lwr, lwr, cmp) && Between(m, c, p, h, lwr, entries, key)
  }

  /** At leaf place idx the key compares as res says, and right there it fits between its neighbours. */
  ghost predicate FitsAt(m: Pager, c: Ctx, p: Pgno, idx: nat, res: int, entries: seq<Payload>, key: Blob) {
    p in m &&
    var ins := if res < 0 && m[p].apCell != [] then idx + 1 else idx;
    && ins <= |m[p].apCell|
    && AllBelow(entries, |Before(m, c, 1)| + ins, key) && AllAbove(entries, |Before(m, c, 1)| + ins, key)
  }

  /** The search ended at a matching cell. */
  lemma SearchHit(m: Pager, c: Ctx, p: Pgno, h: nat, idx: nat, entries: seq<Payload>, bag: multiset<Pgno>, root: Pgno, key: Blob)
    requires Placed(m, c, p, h, idx, entries, bag, root) && idx < |m[p].apCell| && m[p].apCell[idx].item.key == key
    ensures HiPos(m, c, p, h, idx) < |entries| && entries[HiPos(m, c, p, h, idx)].key == key
    ensures exists i :: 0 <= i < |entries| && entries[i].key == key
  {
    SearchFound(m, c, p, h, idx, entries, bag, root);
  }

  /** The search ended on a leaf, beside the last cell compared. */
  lemma SearchMiss(m: Pager, c: Ctx, p: Pgno, h: nat, idx: nat, lwr: nat, res: int, entries: seq<Payload>, bag: multiset<Pgno>,
                   root: Pgno, key: Blob)
    requires Placed(m, c, p, h, idx, entries, bag, root) && lwr <= |m[p].apCell| && Child(m[p], lwr) == 0
    requires res != 0 && Beside(|m[p].apCell|, idx, lwr, lwr, res) && Between(m, c, p, h, lwr, entries, key)
    ensures forall i | 0 <= i < |entries| :: entries[i].key != key
    ensures h == 1 && (idx < |m[p].apCell| || (res == -1 && entries == [])) && FitsAt(m, c, p, idx, res, entries, key)
  {
    LeafFound(m, c, p, h, idx, lwr, entries, bag, root, key);
    MissFits(m, c, p, idx, lwr, res, entries, key);
  }

  lemma MissFits(m: Pager, c: Ctx, p: Pgno, idx: nat, lwr: nat, res: int, entries: seq<Payload>, key: Blob)
    requires p in m && lwr <= |m[p].apCell| && Beside(|m[p].apCell|, idx, lwr, lwr, res)
    requires AllBelow(entries, |Before(m, c, 1)| + lwr, key) && AllAbove(entries, |Before(m, c, 1)| + lwr, key)
    ensures FitsAt(m, c, p, idx, res, entries, key)
  {}

  lemma SearchFound(m: Pager, c: Ctx, p: Pgno, h: nat, idx: nat, entries: seq<Payload>, bag: multiset<Pgno>, root: Pgno)
    requires Placed(m, c, p, h, idx, entries, bag, root) && idx < |m[p].apCell|
    ensures HiPos(m, c, p, h, idx) < |entries| && entries[HiPos(m, c, p, h, idx)] == m[p].apCell[idx].item
  {
    EntryAt(m, c, p, h, idx);
  }

  lemma ReplaceAt<T>(s: seq<T>, a: nat, x: T)
    requires a < |s|
    ensures var t := s[..a] + s[a + 1..]; t[..a] + [x] + t[a..] == s[..a] + [x] + s[a + 1..]
  {}

  /** Only the page written is in work. */
  lemma RewrittenInWork(m: Pager, m1: Pager, c: Ctx, p: Pgno, h: nat, es: seq<Payload>, bag: multiset<Pgno>, root: Pgno)
    requires h > 0 && Sound(m, bag, root) && root == Root(c, p) && p in m && p in m1
    requires m1 == m[p := m1[p]] && Holds(m1, c, p, h, es, bag) && Crowded(m1[p].apCell)
    ensures InWork(m1, c, p, h, es, bag) && Conserved(m, bag, m1, bag)
  {
    assert p in Bag(m1, p, h);
    assert bag[p] >= Bag(m1, p, h)[p];
    OthersSound(m, m1, p, bag, root);
  }

  lemma OthersSound(m: Pager, m1: Pager, p: Pgno, bag: multiset<Pgno>, root: Pgno)
    requires Sound(m, bag, root) && p in m && p in m1 && m1 == m[p := m1[p]] && p in bag
    ensures SoundBut(m1, bag, {p}, root) && Conserved(m, bag, m1, bag)
  {
    forall q | q in bag && q !in {p} ensures SoundAt(m1, q, root) {
      assert SoundAt(m, q, root);
    }
  }

  /** One cell changed, or one more, on a sound page is not too much for balance. */
  lemma CellReplaced(m: Pager, c: Ctx, p: Pgno, h: nat, a: nat, x: Cell, entries: seq<Payload>, bag: multiset<Pgno>, root: Pgno)
    requires h > 0 && Holds(m, c, p, h, entries, bag) && Sound(m, bag, root) && p in m && a < |m[p].apCell|
    ensures Crowded(m[p].apCell[..a] + [x] + m[p].apCell[a + 1..])
  {
    PageSound(m, c, p, h, entries, bag, root);
    OneExchanged(m[p].apCell, a, x);
  }

  lemma OneExchanged(cells: seq<Cell>, a: nat, x: Cell)
    requires a < |cells| && PageBytes(cells) <= USABLE_SPACE
    ensures Crowded(cells[..a] + [x] + cells[a + 1..])
  {
    assert cells == cells[..a] + [cells[a]] + cells[a + 1..];
    Exchanged(cells[..a], [cells[a]], [x], cells[a + 1..], cells[a + 1..]);
  }

  lemma OneAdded(cells: seq<Cell>, a: nat, x: Cell)
    requires a <= |cells| && PageBytes(cells) <= USABLE_SPACE
    ensures Crowded(cells[..a] + [x] + cells[a..])
  {
    assert cells == cells[..a] + [] + cells[a..];
    Exchanged(cells[..a], [], [x], cells[a..], cells[a..]);
  }

  lemma CellAdded(m: Pager, c: Ctx, p: Pgno, h: nat, a: nat, x: Cell, entries: seq<Payload>, bag: multiset<Pgno>, root: Pgno)
    requires h > 0 && Holds(m, c, p, h, entries, bag) && Sound(m, bag, root) && p in m && a <= |m[p].apCell|
    ensures Crowded(m[p].apCell[..a] + [x] + m[p].apCell[a..])
  {
    PageSound(m, c, p, h, entries, bag, root);
    OneAdded(m[p].apCell, a, x);
  }

  lemma PageSound(m: Pager, c: Ctx, p: Pgno, h: nat, entries: seq<Payload>, bag: multiset<Pgno>, root: Pgno)
    requires h > 0 && Holds(m, c, p, h, entries, bag) && Sound(m, bag, root) && p in m
    ensures PageBytes(m[p].apCell) <= USABLE_SPACE
  {
    assert p in Bag(m, p, h);
    assert bag[p] >= Bag(m, p, h)[p];
    assert SoundAt(m, p, root);
  }

  /** The cell dropped from a place and another inserted there: the page with that cell replaced. */
  lemma ReplacedPage(m: Pager, m1: Pager, p: Pgno, a: nat, x: Cell)
    requires p in m && a < |m[p].apCell|
    requires var t := m[p].apCell[..a] + m[p].apCell[a + 1..]; m1 == m[p := m[p].(apCell := t[..a] + [x] + t[a..])]
    ensures m1 == Rewritten(m, p, m[p].apCell[..a] + [x] + m[p].apCell[a + 1..])
  {
    ReplaceAt(m[p].apCell, a, x);
  }

  lemma PutInWork(m: Pager, m1: Pager, c: Ctx, p: Pgno, h: nat, a: nat, item: Payload, entries: seq<Payload>, bag: multiset<Pgno>,
                  root: Pgno, n: nat, es: seq<Payload>)
    requires h > 0 && Holds(m, c, p, h, entries, bag) && Sound(m, bag, root) && root == Root(c, p) && p in m && a < |m[p].apCell|
    requires n == HiPos(m, c, p, h, a) && n < |entries| && es == entries[n := item]
    requires m1 == Rewritten(m, p, m[p].apCell[..a] + [Cell(m[p].apCell[a].leftChild, item)] + m[p].apCell[a + 1..])
    ensures InWork(m1, c, p, h, es, bag) && Conserved(m, bag, m1, bag)
  {
    ReplacedHolds(m, m1, c, p, h, a, item, entries, bag, n, es);
    CellReplaced(m, c, p, h, a, Cell(m[p].apCell[a].leftChild, item), entries, bag, root);
    assert m1 == m[p := m1[p]];
    RewrittenInWork(m, m1, c, p, h, es, bag, root);
  }

  lemma AddedInWork(m: Pager, m1: Pager, c: Ctx, p: Pgno, a: nat, item: Payload, entries: seq<Payload>, bag: multiset<Pgno>, root: Pgno,
                    n: nat, es: seq<Payload>)
    requires Holds(m, c, p, 1, entries, bag) && Sound(m, bag, root) && root == Root(c, p) && p in m && a <= |m[p].apCell|
    requires n == |Before(m, c, 1)| + a && n <= |entries| && es == entries[..n] + [item] + entries[n..]
    requires m1 == Rewritten(m, p, m[p].apCell[..a] + [Cell(0, item)] + m[p].apCell[a..])
    ensures InWork(m1, c, p, 1, es, bag) && Conserved(m, bag, m1, bag)
  {
    InsertedHolds(m, m1, c, p, a, item, entries, bag, n, es);
    CellAdded(m, c, p, 1, a, Cell(0, item), entries, bag, root);
    assert m1 == m[p := m1[p]];
    RewrittenInWork(m, m1, c, p, 1, es, bag, root);
  }

  /** A new cell over the same subtree. */
  lemma SwappedPlaces(m: Pager, ix: Places, p: Pgno, a: nat, item: Payload)
    requires Indexed(m, ix, {}) && p in m && a < |m[p].apCell|
    ensures Indexed(Rewritten(m, p, m[p].apCell[..a] + [Cell(m[p].apCell[a].leftChild, item)] + m[p].apCell[a + 1..]), ix, {})
  {
    SameChildren(m, ix, p, m[p].(apCell := m[p].apCell[..a] + [Cell(m[p].apCell[a].leftChild, item)] + m[p].apCell[a + 1..]));
  }

  /** A new cell on a leaf. */
  lemma AddedPlaces(m: Pager, ix: Places, c: Ctx, p: Pgno, a: nat, item: Payload)
    requires Indexed(m, ix, {}) && At(m, c, p, 1) && p in m && a <= |m[p].apCell|
    ensures Indexed(Rewritten(m, p, m[p].apCell[..a] + [Cell(0, item)] + m[p].apCell[a..]), ix, {})
  {
    var page := m[p].(apCell := m[p].apCell[..a] + [Cell(0, item)] + m[p].apCell[a..]);
    forall l: nat | l <= |page.apCell| ensures Child(page, l) == 0 {
      ChildHeight(m, c, p, 1, if l < a then l else if l == a then |m[p].apCell| else l - 1);
    }
    NoChildren(m, ix, p, page);
  }

  /** The cursor is on its cell when balancing starts. */
  lemma StartsOn(m: Pager, c: Ctx, p: Pgno, h: nat, es: seq<Payload>, bag: multiset<Pgno>, idx: nat, x: Payload)
    requires h > 0 && Holds(m, c, p, h, es, bag) && p in m && idx < |m[p].apCell| && m[p].apCell[idx].item == x
    ensures CurOn(m, bag, BtreeTrack.On(p, idx), Entry(x)) && OffSpine(c, BtreeTrack.On(p, idx))
  {
    SelfOffSpine(m, c, p, h);
    assert p in Bag(m, p, h);
    assert bag[p] >= Bag(m, p, h)[p];
  }

  /** Every page of a balanced tree has its place in it. */
  lemma PlaceFound(m: Pager, root: Pgno, t: nat, es: seq<Payload>, bag: multiset<Pgno>, q: Pgno, idx: nat)
    returns (c: Ctx, h: nat)
    requires Balanced(m, root, t, es, bag) && root != 0 && q in bag && q in m && idx <= |m[q].apCell|
    ensures Placed(m, c, q, h, idx, es, bag, root)
  {
    assert CtxBag(m, Top, t) + Bag(m, root, t) == Bag(m, root, t);
    c, h := PageFound(m, Top, root, t, es, bag, q);
  }

  lemma {:induction false} PageFound(m: Pager, c0: Ctx, p: Pgno, h0: nat, es: seq<Payload>, bag: multiset<Pgno>, q: Pgno)
    returns (c: Ctx, h: nat)
    requires Holds(m, c0, p, h0, es, bag) && q in Bag(m, p, h0)
    ensures h > 0 && Holds(m, c, q, h, es, bag) && Root(c, q) == Root(c0, p)
    decreases h0
  {
    if q == p {
      c, h := c0, h0;
    } else {
      var l := ChildWith(m, p, h0, q);
      ChildHolds(m, c0, p, h0, l, es, bag);
      c, h := PageFound(m, ChildCtx(c0, p, m[p], l), Child(m[p], l), h0 - 1, es, bag, q);
    }
  }

  lemma ChildWith(m: Pager, p: Pgno, h: nat, q: Pgno) returns (l: nat)
    requires h > 0 && p in m && q in Bag(m, p, h) && q != p
    ensures l <= |m[p].apCell| && q in Bag(m, Child(m[p], l), h - 1)
  {
    if q in Bag(m, m[p].rightChild, h - 1) {
      l := |m[p].apCell|;
    } else {
      l := CellWith(m, m[p].apCell, h - 1, q);
    }
  }

  lemma {:induction false} CellWith(m: Pager, cells: seq<Cell>, h: nat, q: Pgno) returns (l: nat)
    requires q in CellsBag(m, cells, h)
    ensures l < |cells| && q in Bag(m, cells[l].leftChild, h)
    decreases |cells|
  {
    if q in Bag(m, cells[0].leftChild, h) {
      l := 0;
    } else {
      l := CellWith(m, cells[1..], h, q);
      l := l + 1;
    }
  }

  /** s is the first n entries. */
  ghost predicate FirstN(s: seq<Payload>, entries: seq<Payload>, n: nat)
    decreases n
  {
    n == |s| && n <= |entries| && (n > 0 ==> s[n - 1] == entries[n - 1] && FirstN(s[..n - 1], entries, n - 1))
  }

  lemma OneMore(s: seq<Payload>, entries: seq<Payload>, n: nat)
    requires FirstN(s, entries, n) && n < |entries|
    ensures FirstN(s + [entries[n]], entries, n + 1)
  {
    assert (s + [entries[n]])[..n] == s;
  }

  lemma {:induction false} AllOfThem(s: seq<Payload>, entries: seq<Payload>, n: nat)
    requires FirstN(s, entries, n)
    ensures s == entries[..n]
    decreases n
  {
    if n > 0 { AllOfThem(s[..n - 1], entries, n - 1); }
  }

  class BtCursor {
    const pBt: Btree
    const pgnoRoot: Pgno
    var pPage: Pgno
    var idx: nat
    var eSkip: Skip
    ghost var c: Ctx
    ghost var h: nat

    constructor (pBt: Btree, pgnoRoot: Pgno, ghost t: nat, ghost entries: seq<Payload>, ghost bag: multiset<Pgno>)
      requires t > 0 && Balanced(pBt.pages, pgnoRoot, t, entries, bag) && Indexed(pBt.pages, pBt.idxParent, {})
      ensures this.pBt == pBt && this.pgnoRoot == pgnoRoot && In(entries, bag) && eSkip == SKIP_NONE
      ensures pPage == pgnoRoot && idx == 0
    {
      this.pBt, this.pgnoRoot := pBt, pgnoRoot;
      pPage, idx, eSkip := pgnoRoot, 0, SKIP_NONE;
      c, h := Top, t;
    }

    /** The cursor is on a page of its tree, which holds these entries and is sound; the pages know their places. */
    ghost predicate Standing(entries: seq<Payload>, bag: multiset<Pgno>)
      reads this, pBt
    {
      Placed(pBt.pages, c, pPage, h, idx, entries, bag, pgnoRoot) && Indexed(pBt.pages, pBt.idxParent, {})
    }

    /** No page above the cursor is marked as changed since its children were told their places. */
    ghost predicate Clear()
      reads this, pBt
    {
      Spine(c) !! pBt.idxShift
    }

    /** The cursor is on a page of its tree, and came there from the root unless it is invalid. */
    ghost predicate In(entries: seq<Payload>, bag: multiset<Pgno>)
      reads this, pBt
    {
      Standing(entries, bag) && (eSkip == SKIP_INVALID || Clear())
    }

    /** The cursor is on a cell. */
    ghost predicate OnCell(entries: seq<Payload>, bag: multiset<Pgno>)
      reads this, pBt
    {
      In(entries, bag) && idx < |pBt.pages[pPage].apCell|
    }

    /** The number of the entry under the cursor. */
    ghost function Rank(): nat
      requires h > 0 && pPage in pBt.pages && idx <= |pBt.pages[pPage].apCell|
      reads this, pBt
    {
      HiPos(pBt.pages, c, pPage, h, idx)
    }

    /** The number of entries before the subtree left of the cursor. */
    ghost function Start(): nat
      requires h > 0 && pPage in pBt.pages && idx <= |pBt.pages[pPage].apCell|
      reads this, pBt
    {
      LoPos(pBt.pages, c, pPage, h, idx)
    }

    /** The cursor moves to place i of page p. */
    method Goto(p: Pgno, i: nat, ghost c1: Ctx, ghost h1: nat, ghost entries: seq<Payload>, ghost bag: multiset<Pgno>)
      requires Placed(pBt.pages, c1, p, h1, i, entries, bag, pgnoRoot) && Indexed(pBt.pages, pBt.idxParent, {})
      requires eSkip == SKIP_INVALID || Spine(c1) !! pBt.idxShift
      modifies this`pPage, this`idx, this`c, this`h
      ensures In(entries, bag) && pPage == p && idx == i && c == c1 && h == h1
    {
      pPage, idx, c, h := p, i, c1, h1;
    }

    /** Down to the child at the cursor's index. */
    method MoveToChild(newPgno: Pgno, ghost entries: seq<Payload>, ghost bag: multiset<Pgno>)
      requires In(entries, bag) && newPgno == Child(pBt.pages[pPage], idx) != 0
      modifies this, pBt`idxParent, pBt`idxShift
      ensures In(entries, bag) && idx == 0 && |pBt.pages[pPage].apCell| > 0 && eSkip == old(eSkip)
      ensures old(h) == h + 1 && pPage == newPgno && c == ChildCtx(old(c), old(pPage), pBt.pages[old(pPage)], old(idx))
      ensures |Before(pBt.pages, c, h)| == old(Start()) && h < old(h) && (old(Clear()) ==> Clear())
    {
      ghost var m, c1, h1 := pBt.pages, ChildCtx(c, pPage, pBt.pages[pPage], idx), h - 1;
      PlacedBelow(m, c, pPage, h, idx, entries, bag, pgnoRoot, newPgno, c1, h1);
      ChildBefore(m, c, pPage, h, idx, c1, h1);
      NotePlace(newPgno);
      Goto(newPgno, 0, c1, h1, entries, bag);
    }

    /** The child's place is noted, which it remembers already, and the page it hangs from is no longer marked. */
    method NotePlace(newPgno: Pgno)
      requires Indexed(pBt.pages, pBt.idxParent, {}) && pPage in pBt.pages && pPage != 0 && idx <= |pBt.pages[pPage].apCell|
      requires newPgno == Child(pBt.pages[pPage], idx) != 0 && newPgno in pBt.pages && pBt.pages[newPgno].pParent == pPage
      modifies pBt`idxParent, pBt`idxShift
      ensures pBt.idxParent == old(pBt.idxParent) && pBt.idxShift == old(pBt.idxShift) - {pPage}
    {
      assert AllTold(pBt.pages, pBt.idxParent, pPage);
      ToldAgain(pBt.pages, pBt.idxParent, pPage, idx);
      pBt.idxParent := pBt.idxParent[newPgno := idx];
      pBt.idxShift := pBt.idxShift - {pPage};
    }

    /** Up to the parent, to the cell or the end this page hangs from. */
    method MoveToParent(ghost entries: seq<Payload>, ghost bag: multiset<Pgno>)
      requires In(entries, bag) && pBt.pages[pPage].pParent != 0 && eSkip != SKIP_INVALID
      modifies this
      ensures In(entries, bag) && c == old(c.up) && h == old(h) + 1 && !old(c.Top?) && eSkip == old(eSkip)
      ensures Rank() == |Before(pBt.pages, old(c), old(h))| + |InOrder(pBt.pages, old(pPage), old(h))|
    {
      var pParent := pBt.pages[pPage].pParent;
      var idxParent := ParentIndex(pParent, entries, bag);
      Goto(pParent, idxParent, c.up, h + 1, entries, bag);
    }

    /** The place in the parent that this page hangs from: as the code asserts, the parent is not marked as changed. */
    method ParentIndex(pParent: Pgno, ghost entries: seq<Payload>, ghost bag: multiset<Pgno>) returns (idxParent: nat)
      requires In(entries, bag) && pParent == pBt.pages[pPage].pParent != 0 && eSkip != SKIP_INVALID
      ensures !c.Top? && pParent == c.pg && Placed(pBt.pages, c.up, pParent, h + 1, idxParent, entries, bag, pgnoRoot)
      ensures HiPos(pBt.pages, c.up, pParent, h + 1, idxParent) == |Before(pBt.pages, c, h)| + |InOrder(pBt.pages, pPage, h)|
      ensures pParent !in pBt.idxShift && pPage in pBt.idxParent && idxParent == pBt.idxParent[pPage] == |c.left|
    {
      HasParent(pBt.pages, c, pPage, h, entries, bag);
      PlacedAbove(pBt.pages, c, pPage, h, idx, entries, bag, pgnoRoot);
      idxParent := pBt.IndexInParent(pParent, pPage, c, h, {});
    }

    method MoveToRoot(ghost entries: seq<Payload>, ghost bag: multiset<Pgno>)
      requires Standing(entries, bag)
      modifies this
      ensures Clear() && In(entries, bag) && c.Top? && pPage == pgnoRoot && idx == 0 && eSkip == old(eSkip)
    {
      Climb(pBt.pages, c, pPage, h, h + Depth(c), entries, bag);
      c, h := Top, h + Depth(c);
      pPage, idx := pgnoRoot, 0;
      PageHasCells(pBt.pages, c, pPage, h, entries, bag, pgnoRoot);
    }

    /** Down to the first entry of the subtree left of the cursor's cell, if there is one. */
    method MoveToLeftmost(ghost entries: seq<Payload>, ghost bag: multiset<Pgno>)
      requires OnCell(entries, bag)
      modifies this, pBt`idxParent, pBt`idxShift
      ensures OnCell(entries, bag) && Rank() == old(Start()) && eSkip == old(eSkip) && (old(Clear()) ==> Clear())
    {
      while pBt.pages[pPage].apCell[idx].leftChild != 0
        invariant OnCell(entries, bag) && Start() == old(Start()) && eSkip == old(eSkip) && (old(Clear()) ==> Clear())
        decreases h
      {
        MoveToChild(pBt.pages[pPage].apCell[idx].leftChild, entries, bag);
        assert pBt.pages[pPage].apCell[..0] == [];
      }
      LeafCell(pBt.pages, c, pPage, h, idx);
    }

    /** To the first entry; res tells that there is none. */
    method First(ghost entries: seq<Payload>, ghost bag: multiset<Pgno>) returns (res: bool)
      requires In(entries, bag)
      modifies this, pBt`idxParent, pBt`idxShift
      ensures In(entries, bag) && (res <==> entries == [])
      ensures !res ==> OnCell(entries, bag) && Rank() == 0 && eSkip == SKIP_NONE
      ensures res ==> |pBt.pages[pPage].apCell| == 0
    {
      MoveToRoot(entries, bag);
      if |pBt.pages[pPage].apCell| == 0 {
        PageHasCells(pBt.pages, c, pPage, h, entries, bag, pgnoRoot);
        return true;
      }
      AfterCell(pBt.pages, c, pPage, h, idx, entries, bag, pgnoRoot);
      assert pBt.pages[pPage].apCell[..0] == [];
      MoveToLeftmost(entries, bag);
      eSkip := SKIP_NONE;
      res := false;
    }

    /** To the next entry; res tells that the last one was passed. A cursor left on its successor stays. */
    method Next(ghost entries: seq<Payload>, ghost bag: multiset<Pgno>) returns (res: bool)
      requires In(entries, bag) && (OnCell(entries, bag) || |pBt.pages[pPage].apCell| == 0) && eSkip != SKIP_INVALID
      modifies this, pBt`idxParent, pBt`idxShift
      ensures In(entries, bag) && (eSkip == SKIP_NONE || entries == [])
      ensures |pBt.pages[old(pPage)].apCell| == 0 ==> res && entries == []
      ensures !res ==> OnCell(entries, bag) && eSkip == SKIP_NONE && Rank() < |entries|
      ensures !res ==> Rank() == if old(eSkip) == SKIP_NEXT then old(Rank()) else old(Rank()) + 1
      ensures res && entries != [] ==> old(eSkip) != SKIP_NEXT && old(Rank()) + 1 == |entries|
    {
      PageHasCells(pBt.pages, c, pPage, h, entries, bag, pgnoRoot);
      if |pBt.pages[pPage].apCell| == 0 { return true; }
      if eSkip == SKIP_NEXT {
        eSkip := SKIP_NONE;
        SearchFound(pBt.pages, c, pPage, h, idx, entries, bag, pgnoRoot);
        return false;
      }
      eSkip := SKIP_NONE;
      AfterCell(pBt.pages, c, pPage, h, idx, entries, bag, pgnoRoot);
      idx := idx + 1;
      res := Advance(old(Rank()) + 1, entries, bag);
    }

    /** The entry numbered n, if there is one, from the place right before it. */
    method Advance(ghost n: nat, ghost entries: seq<Payload>, ghost bag: multiset<Pgno>) returns (res: bool)
      requires In(entries, bag) && |pBt.pages[pPage].apCell| > 0 && Start() == n && eSkip == SKIP_NONE
      modifies this, pBt`idxParent, pBt`idxShift
      ensures In(entries, bag) && eSkip == SKIP_NONE
      ensures !res ==> OnCell(entries, bag) && Rank() == n
      ensures res <==> n == |entries|
    {
      res := AdvanceTo(n, entries, bag);
      if !res { SearchFound(pBt.pages, c, pPage, h, idx, entries, bag, pgnoRoot); }
    }

    method AdvanceTo(ghost n: nat, ghost entries: seq<Payload>, ghost bag: multiset<Pgno>) returns (res: bool)
      requires In(entries, bag) && |pBt.pages[pPage].apCell| > 0 && Start() == n && eSkip == SKIP_NONE
      modifies this, pBt`idxParent, pBt`idxShift
      ensures In(entries, bag) && eSkip == SKIP_NONE
      ensures !res ==> OnCell(entries, bag) && Rank() == n
      ensures res ==> n == |entries|
    {
      if idx >= |pBt.pages[pPage].apCell| {
        if pBt.pages[pPage].rightChild != 0 {
          MoveToChild(pBt.pages[pPage].rightChild, entries, bag);
          assert pBt.pages[pPage].apCell[..0] == [];
          MoveToLeftmost(entries, bag);
          return false;
        }
        LeafPlace(pBt.pages, c, pPage, h, idx, entries, bag, pgnoRoot);
        res := ClimbToCell(n, entries, bag);
      } else {
        if pBt.pages[pPage].rightChild == 0 {
          LeafPlace(pBt.pages, c, pPage, h, idx, entries, bag, pgnoRoot);
        } else {
          MoveToLeftmost(entries, bag);
        }
        res := false;
      }
    }

    /** Up from the end of a page to the next cell on the way to the root. */
    method ClimbToCell(ghost n: nat, ghost entries: seq<Payload>, ghost bag: multiset<Pgno>) returns (res: bool)
      requires In(entries, bag) && eSkip == SKIP_NONE && Rank() == n
      modifies this
      ensures In(entries, bag) && eSkip == SKIP_NONE
      ensures !res ==> OnCell(entries, bag) && Rank() == n
      ensures res ==> n == |entries|
    {
      res := false;
      while !res && idx >= |pBt.pages[pPage].apCell|
        invariant In(entries, bag) && eSkip == SKIP_NONE
        invariant if res then n == |entries| else Rank() == n
        decreases !res, Depth(c)
      {
        res := ClimbOne(n, entries, bag);
      }
    }

    /** One step up from the end of a page; res tells that there is no parent, and so no further entry. */
    method ClimbOne(ghost n: nat, ghost entries: seq<Payload>, ghost bag: multiset<Pgno>) returns (res: bool)
      requires In(entries, bag) && idx == |pBt.pages[pPage].apCell| && Rank() == n && eSkip == SKIP_NONE
      modifies this
      ensures In(entries, bag) && eSkip == old(eSkip)
      ensures !res ==> Rank() == n && !old(c.Top?) && c == old(c.up)
      ensures res ==> n == |entries|
    {
      PageEnd(pBt.pages, c, pPage, h);
      if pBt.pages[pPage].pParent == 0 {
        RootEnd(pBt.pages, c, pPage, h, entries, bag);
        return true;
      }
      MoveToParent(entries, bag);
      res := false;
    }

    /** The sign of the cell's key against the key looked for. */
    method KeyCompareAt(key: Blob) returns (c: int)
      requires pPage in pBt.pages && idx < |pBt.pages[pPage].apCell|
      ensures var k := pBt.pages[pPage].apCell[idx].item.key;
        c == FileKeyCompare(k, key) && (c < 0 <==> Less(k, key)) && (c == 0 <==> k == key) && (c > 0 <==> Less(key, k))
    {
      FileKeyCompareSign(pBt.pages[pPage].apCell[idx].item.key, key);
      c := FileKeyCompare(pBt.pages[pPage].apCell[idx].item.key, key);
    }

    /** Binary search on the cursor's page: the matching cell, or the child to look in. */
    method SearchPage(key: Blob) returns (cmp: int, lwr: nat)
      requires pPage in pBt.pages && idx == 0
      modifies this`idx
      ensures var cells := pBt.pages[pPage].apCell;
        if cmp == 0 then lwr <= |cells| && idx < |cells| && cells[idx].item.key == key else Bracketed(cells, idx, lwr, lwr, cmp, key)
    {
      cmp, lwr := -1, 0;
      var upr: int := |pBt.pages[pPage].apCell| - 1;
      while lwr <= upr
        invariant cmp != 0 && -1 <= upr && Bracketed(pBt.pages[pPage].apCell, idx, lwr, upr + 1, cmp, key)
      {
        idx := (lwr + upr) / 2;
        cmp := KeyCompareAt(key);
        if cmp == 0 { return; }
        if cmp < 0 {
          lwr := idx + 1;
        } else {
          upr := idx - 1;
        }
      }
    }

    /** The search of one page, and what it means for the key's place among all entries. */
    method SearchHere(key: Blob, ghost entries: seq<Payload>) returns (cmp: int, lwr: nat)
      requires h > 0 && pPage in pBt.pages && Entries(pBt.pages, c, pPage, h) == entries
      requires SortedEntries(entries) && Within(pBt.pages, c, pPage, h, entries, key) && idx == 0
      modifies this`idx
      ensures Searched(pBt.pages, c, pPage, h, idx, lwr, cmp, entries, key)
    {
      cmp, lwr := SearchPage(key);
      if cmp != 0 { BracketedIsBetween(pBt.pages, c, pPage, h, idx, lwr, cmp, entries, key); }
    }

    /** Down from the root, page by page, until a cell matches or no child is left to look in. */
    method Descend(key: Blob, ghost entries: seq<Payload>, ghost bag: multiset<Pgno>) returns (res: int, lwr: nat)
      requires In(entries, bag) && SortedEntries(entries) && c.Top? && idx == 0
      modifies this, pBt`idxParent, pBt`idxShift
      ensures In(entries, bag) && eSkip == old(eSkip) && Searched(pBt.pages, c, pPage, h, idx, lwr, res, entries, key)
      ensures res == 0 || Child(pBt.pages[pPage], lwr) == 0
    {
      RootWithin(pBt.pages, pPage, h, entries, bag, key);
      res, lwr := SearchHere(key, entries);
      while res != 0 && Child(pBt.pages[pPage], lwr) != 0
        invariant In(entries, bag) && eSkip == old(eSkip)
        invariant Searched(pBt.pages, c, pPage, h, idx, lwr, res, entries, key)
        decreases res != 0, h
      {
        res, lwr := SearchBelow(lwr, res, key, entries, bag);
      }
    }

    /** One level down, to the child in which the key's place is. */
    method DownTo(lwr: nat, ghost res: int, key: Blob, ghost entries: seq<Payload>, ghost bag: multiset<Pgno>)
      requires In(entries, bag) && res != 0
      requires Searched(pBt.pages, c, pPage, h, idx, lwr, res, entries, key) && Child(pBt.pages[pPage], lwr) != 0
      modifies this, pBt`idxParent, pBt`idxShift
      ensures In(entries, bag) && eSkip == old(eSkip) && h < old(h) && idx == 0 && Within(pBt.pages, c, pPage, h, entries, key)
    {
      ghost var m, c0, p, h0 := pBt.pages, c, pPage, h;
      idx := lwr;
      MoveToChild(Child(pBt.pages[pPage], lwr), entries, bag);
      ChildEnd(m, c0, p, h0, lwr, entries, key, pPage, c, h);
    }

    /** And the search of the page there. */
    method SearchBelow(lwr0: nat, ghost res0: int, key: Blob, ghost entries: seq<Payload>, ghost bag: multiset<Pgno>)
      returns (res: int, lwr: nat)
      requires In(entries, bag) && SortedEntries(entries) && res0 != 0
      requires Searched(pBt.pages, c, pPage, h, idx, lwr0, res0, entries, key) && Child(pBt.pages[pPage], lwr0) != 0
      modifies this, pBt`idxParent, pBt`idxShift
      ensures In(entries, bag) && eSkip == old(eSkip) && h < old(h)
      ensures Searched(pBt.pages, c, pPage, h, idx, lwr, res, entries, key)
    {
      DownTo(lwr0, res0, key, entries, bag);
      res, lwr := SearchHere(key, entries);
    }

    /**
     * To the entry with this key; if there is none, res is not 0 and the cursor is on a leaf,
     * where the sign of res gives the one place the key fits.
     */
    method Moveto(key: Blob, ghost entries: seq<Payload>, ghost bag: multiset<Pgno>) returns (res: int)
      requires In(entries, bag) && SortedEntries(entries)
      modifies this, pBt`idxParent, pBt`idxShift
      ensures In(entries, bag) && eSkip == SKIP_NONE
      ensures res == 0 <==> exists i :: 0 <= i < |entries| && entries[i].key == key
      ensures res == 0 ==> OnCell(entries, bag) && Rank() < |entries| && entries[Rank()].key == key
      ensures res != 0 ==> h == 1 && (OnCell(entries, bag) || (res == -1 && entries == []))
      ensures res != 0 ==> FitsAt(pBt.pages, c, pPage, idx, res, entries, key)
    {
      eSkip := SKIP_NONE;
      MoveToRoot(entries, bag);
      var lwr;
      res, lwr := Descend(key, entries, bag);
      if res == 0 {
        SearchHit(pBt.pages, c, pPage, h, idx, entries, bag, pgnoRoot, key);
      } else {
        SearchMiss(pBt.pages, c, pPage, h, idx, lwr, res, entries, bag, pgnoRoot, key);
      }
    }

    /**
     * The entry is put into the tree: it replaces the entry of its key, or goes to the key's one place;
     * then the tree is balanced. The cursor is left on the new entry, and must be moved before it can step again.
     */
    method Insert(key: Key, data: Blob, ghost entries: seq<Payload>, ghost bag: multiset<Pgno>)
      returns (ghost es: seq<Payload>, ghost bag1: multiset<Pgno>)
      requires In(entries, bag) && SortedEntries(entries)
      modifies this, pBt
      ensures IsPut(entries, es, Payload(key, data)) && eSkip == SKIP_INVALID
      ensures OnCell(es, bag1) && pBt.pages[pPage].apCell[idx].item == Payload(key, data)
      ensures Rank() < |es| && es[Rank()] == Payload(key, data)
      ensures Conserved(old(pBt.pages), bag, pBt.pages, bag1)
    {
      var loc := Moveto(key, entries, bag);
      if loc == 0 {
        es := ReplaceCell(Payload(key, data), entries, bag);
      } else {
        es := AddCell(Payload(key, data), loc, entries, bag);
      }
      bag1 := Rebalance(es, bag, Payload(key, data));
      SearchFound(pBt.pages, c, pPage, h, idx, es, bag1, pgnoRoot);
    }

    /** The new cell takes the matching cell's place, and its subtree. */
    method ReplaceCell(item: Payload, ghost entries: seq<Payload>, ghost bag: multiset<Pgno>) returns (ghost es: seq<Payload>)
      requires SortedEntries(entries) && OnCell(entries, bag) && Rank() < |entries| && entries[Rank()].key == item.key
      modifies pBt`pages, pBt`idxShift
      ensures InWork(pBt.pages, c, pPage, h, es, bag) && IsPut(entries, es, item) && Indexed(pBt.pages, pBt.idxParent, {})
      ensures idx < |pBt.pages[pPage].apCell| && pBt.pages[pPage].apCell[idx].item == item
      ensures Conserved(old(pBt.pages), bag, pBt.pages, bag)
    {
      ghost var m := pBt.pages;
      ghost var n := Rank();
      es := entries[n := item];
      PutReplaced(entries, n, item);
      SwapCell(item);
      SwappedPlaces(m, pBt.idxParent, pPage, idx, item);
      PutInWork(m, pBt.pages, c, pPage, h, idx, item, entries, bag, pgnoRoot, n, es);
    }

    method SwapCell(item: Payload)
      requires pPage in pBt.pages && idx < |pBt.pages[pPage].apCell|
      modifies pBt`pages, pBt`idxShift
      ensures var cells := old(pBt.pages)[pPage].apCell;
        pBt.pages == Rewritten(old(pBt.pages), pPage, cells[..idx] + [Cell(cells[idx].leftChild, item)] + cells[idx + 1..])
      ensures idx < |pBt.pages[pPage].apCell| && pBt.pages[pPage].apCell[idx].item == item
    {
      var newCell := Cell(pBt.pages[pPage].apCell[idx].leftChild, item);
      pBt.DropCell(pPage, idx);
      pBt.InsertCell(pPage, idx, newCell);
      ReplacedPage(old(pBt.pages), pBt.pages, pPage, idx, newCell);
    }

    method NewCell(item: Payload)
      requires pPage in pBt.pages && idx <= |pBt.pages[pPage].apCell|
      modifies pBt`pages, pBt`idxShift
      ensures var cells := old(pBt.pages)[pPage].apCell;
        pBt.pages == Rewritten(old(pBt.pages), pPage, cells[..idx] + [Cell(0, item)] + cells[idx..])
      ensures idx < |pBt.pages[pPage].apCell| && pBt.pages[pPage].apCell[idx].item == item
    {
      pBt.InsertCell(pPage, idx, Cell(0, item));
    }

    /** The new cell goes between its neighbours on the leaf. */
    method AddCell(item: Payload, loc: int, ghost entries: seq<Payload>, ghost bag: multiset<Pgno>) returns (ghost es: seq<Payload>)
      requires In(entries, bag) && SortedEntries(entries) && loc != 0 && h == 1
      requires FitsAt(pBt.pages, c, pPage, idx, loc, entries, item.key)
      modifies this`idx, pBt`pages, pBt`idxShift
      ensures InWork(pBt.pages, c, pPage, h, es, bag) && IsPut(entries, es, item) && Indexed(pBt.pages, pBt.idxParent, {})
      ensures idx < |pBt.pages[pPage].apCell| && pBt.pages[pPage].apCell[idx].item == item
      ensures Conserved(old(pBt.pages), bag, pBt.pages, bag)
    {
      if loc < 0 && |pBt.pages[pPage].apCell| > 0 {
        idx := idx + 1;
      }
      ghost var n := |Before(pBt.pages, c, 1)| + idx;
      es := entries[..n] + [item] + entries[n..];
      PutInserted(entries, n, item);
      AddHere(item, entries, bag, n, es);
    }

    method AddHere(item: Payload, ghost entries: seq<Payload>, ghost bag: multiset<Pgno>, ghost n: nat, ghost es: seq<Payload>)
      requires In(entries, bag) && h == 1
      requires n == |Before(pBt.pages, c, 1)| + idx && n <= |entries| && es == entries[..n] + [item] + entries[n..]
      modifies pBt`pages, pBt`idxShift
      ensures InWork(pBt.pages, c, pPage, h, es, bag) && Indexed(pBt.pages, pBt.idxParent, {})
      ensures idx < |pBt.pages[pPage].apCell| && pBt.pages[pPage].apCell[idx].item == item
      ensures Conserved(old(pBt.pages), bag, pBt.pages, bag)
    {
      ghost var m := pBt.pages;
      NewCell(item);
      AddedPlaces(m, pBt.idxParent, c, pPage, idx, item);
      AddedInWork(m, pBt.pages, c, pPage, idx, item, entries, bag, pgnoRoot, n, es);
    }

    /** The tree is balanced, and the cursor stays on its entry. */
    method Rebalance(ghost es: seq<Payload>, ghost bag: multiset<Pgno>, ghost x: Payload) returns (ghost bag1: multiset<Pgno>)
      requires InWork(pBt.pages, c, pPage, h, es, bag) && Root(c, pPage) == pgnoRoot != 0 && Indexed(pBt.pages, pBt.idxParent, {})
      requires idx < |pBt.pages[pPage].apCell| && pBt.pages[pPage].apCell[idx].item == x
      modifies this, pBt
      ensures OnCell(es, bag1) && pBt.pages[pPage].apCell[idx].item == x
      ensures eSkip == SKIP_INVALID && Conserved(old(pBt.pages), bag, pBt.pages, bag1)
    {
      ghost var t;
      var cur;
      StartsOn(pBt.pages, c, pPage, h, es, bag, idx, x);
      cur, t, bag1 := pBt.Balance(pPage, BtreeTrack.On(pPage, idx), c, h, es, bag, pgnoRoot, Entry(x));
      Land(cur, t, es, bag1, x);
    }

    /** To where balancing left the cursor. */
    method Land(cur: Cur, ghost t: nat, ghost es: seq<Payload>, ghost bag: multiset<Pgno>, ghost x: Payload)
      requires Balanced(pBt.pages, pgnoRoot, t, es, bag) && pgnoRoot != 0 && CurOn(pBt.pages, bag, cur, Entry(x))
      requires Indexed(pBt.pages, pBt.idxParent, {})
      modifies this
      ensures OnCell(es, bag) && pBt.pages[pPage].apCell[idx].item == x && eSkip == SKIP_INVALID
    {
      eSkip := SKIP_INVALID;
      ghost var c1, h1 := PlaceFound(pBt.pages, pgnoRoot, t, es, bag, cur.pPage, cur.idx);
      Goto(cur.pPage, cur.idx, c1, h1, es, bag);
    }

    /** Midway through a scan: the entries before the cursor's have been seen. */
    ghost predicate Seen(s: seq<Payload>, entries: seq<Payload>, bag: multiset<Pgno>)
      reads this, pBt
    {
      OnCell(entries, bag) && eSkip == SKIP_NONE && Rank() < |entries| && FirstN(s, entries, Rank())
    }

    /** The entry under the cursor, and on to the next. */
    method Step(s0: seq<Payload>, ghost entries: seq<Payload>, ghost bag: multiset<Pgno>) returns (s: seq<Payload>, res: bool)
      requires Seen(s0, entries, bag)
      modifies this, pBt`idxParent, pBt`idxShift
      ensures |s| == |s0| + 1
      ensures res ==> In(entries, bag) && FirstN(s, entries, |entries|)
      ensures !res ==> Seen(s, entries, bag)
    {
      ghost var r := Rank();
      var x := Item(entries, bag);
      s := s0 + [x];
      OneMore(s0, entries, r);
      res := Onward(r, entries, bag);
    }

    /** On from an entry: the scan's next step. */
    method Onward(ghost r: nat, ghost entries: seq<Payload>, ghost bag: multiset<Pgno>) returns (res: bool)
      requires OnCell(entries, bag) && eSkip == SKIP_NONE && r == Rank() < |entries|
      modifies this, pBt`idxParent, pBt`idxShift
      ensures In(entries, bag) && eSkip == SKIP_NONE
      ensures res ==> r + 1 == |entries|
      ensures !res ==> OnCell(entries, bag) && Rank() == r + 1 < |entries|
    {
      res := Next(entries, bag);
    }

    /** The entry under the cursor. */
    method Item(ghost entries: seq<Payload>, ghost bag: multiset<Pgno>) returns (x: Payload)
      requires OnCell(entries, bag)
      ensures Rank() < |entries| && x == entries[Rank()]
    {
      SearchFound(pBt.pages, c, pPage, h, idx, entries, bag, pgnoRoot);
      x := pBt.pages[pPage].apCell[idx].item;
    }

    /** A full scan, first entry then next until the end: every entry once, in key order. */
    method Scan(ghost entries: seq<Payload>, ghost bag: multiset<Pgno>) returns (s: seq<Payload>)
      requires In(entries, bag) && SortedEntries(entries)
      modifies this, pBt`idxParent, pBt`idxShift
      ensures In(entries, bag) && s == entries && SortedEntries(s)
    {
      s := [];
      var res := First(entries, bag);
      if !res { SearchFound(pBt.pages, c, pPage, h, idx, entries, bag, pgnoRoot); }
      while !res
        invariant In(entries, bag) && |s| <= |entries|
        invariant res ==> FirstN(s, entries, |entries|)
        invariant !res ==> Seen(s, entries, bag)
        decreases !res, |entries| - |s|
      {
        s, res := Step(s, entries, bag);
      }
      AllOfThem(s, entries, |entries|);
    }
  }
}

/** A row of cells cut into pages: the new siblings, their dividers, and who adopts which subtree. */
module BtreeLayout {
  import opened Sequences
  import opened FileFormat
  import opened BtreeShape
  import opened BtreeGather
  import opened BtreeSiblings
  import opened BalanceSplit

  /** Parent page, its cells around the group, the row to lay out, its right-most subtree, the cuts and the page numbers. */
  datatype Layout = Layout(par: Pgno, pre: seq<Cell>, post: seq<Cell>, row: seq<Cell>, tail: Pgno, cnt: seq<int>, news: seq<Pgno>)

  /** Page i holds the cells from Start to cnt[i]; the cell at cnt[i] is the divider after it. */
  ghost predicate Cuts(n: int, cnt: seq<int>) {
    |cnt| >= 1 && cnt[|cnt| - 1] == n && forall i | 0 <= i < |cnt| :: CutAt(n, cnt, i)
  }

  ghost predicate CutAt(n: int, cnt: seq<int>, i: int)
    requires 0 <= i < |cnt|
  {
    0 <= Start(cnt, i) <= cnt[i] <= n && (i < |cnt| - 1 ==> cnt[i] < n)
  }

  lemma FitsAreCuts(sz: seq<int>, cnt: seq<int>)
    requires Fits(sz, cnt)
    ensures Cuts(|sz|, cnt)
  {
    forall i | 0 <= i < |cnt| ensures CutAt(|sz|, cnt, i) {
      assert PageFits(sz, cnt, i);
      if i < |cnt| - 1 { assert PageFits(sz, cnt, i + 1); }
    }
  }

  ghost predicate Ok(l: Layout) {
    Cuts(|l.row|, l.cnt) && |l.news| == |l.cnt| && Distinct(l.news) && l.par !in l.news
  }

  /** The row of cells page i gets. */
  ghost function PageCells(l: Layout, i: int): seq<Cell>
    requires Ok(l) && 0 <= i < |l.cnt|
  {
    assert CutAt(|l.row|, l.cnt, i);
    l.row[Start(l.cnt, i)..l.cnt[i]]
  }

  /** The subtree right of page i's last cell. */
  ghost function PageRight(l: Layout, i: int): Pgno
    requires Ok(l) && 0 <= i < |l.cnt|
  {
    assert CutAt(|l.row|, l.cnt, i);
    if i < |l.cnt| - 1 then l.row[l.cnt[i]].leftChild else l.tail
  }

  /** The divider after page i. */
  ghost function Divider(l: Layout, i: int): Cell
    requires Ok(l) && 0 <= i < |l.cnt| - 1
  {
    assert CutAt(|l.row|, l.cnt, i);
    Cell(l.news[i], l.row[l.cnt[i]].item)
  }

  ghost function Dividers(l: Layout, n: nat): (r: seq<Cell>)
    requires Ok(l) && n < |l.cnt|
    ensures |r| == n
  {
    if n == 0 then [] else Dividers(l, n - 1) + [Divider(l, n - 1)]
  }

  lemma {:induction false} DividersLefts(l: Layout, n: nat)
    requires Ok(l) && n < |l.cnt|
    ensures Lefts(Dividers(l, n)) == l.news[..n]
  {
    if n > 0 {
      DividersLefts(l, n - 1);
      LeftsConcat(Dividers(l, n - 1), [Divider(l, n - 1)]);
      assert Lefts([Divider(l, n - 1)]) == [l.news[n - 1]];
    }
  }

  lemma {:induction false} LeftsConcat(a: seq<Cell>, b: seq<Cell>)
    ensures Lefts(a + b) == Lefts(a) + Lefts(b)
    decreases |a|
  {
    if a == [] {
      assert a + b == b;
    } else {
      assert (a + b)[1..] == a[1..] + b;
      LeftsConcat(a[1..], b);
    }
  }

  lemma {:induction false} LeftsAt(cells: seq<Cell>)
    ensures |Lefts(cells)| == |cells| && forall i | 0 <= i < |cells| :: Lefts(cells)[i] == cells[i].leftChild
    decreases |cells|
  {
    if cells != [] {
      LeftsAt(cells[1..]);
      forall i | 0 <= i < |cells| ensures Lefts(cells)[i] == cells[i].leftChild {
        if i > 0 { assert cells[i] == cells[1..][i - 1]; }
      }
    }
  }

  /** In memory m, new page i is laid out. */
  ghost predicate LaidAt(m: Pager, l: Layout, i: int)
    requires Ok(l) && 0 <= i < |l.cnt|
  {
    l.news[i] in m && m[l.news[i]].apCell == PageCells(l, i) && m[l.news[i]].rightChild == PageRight(l, i)
  }

  // ---------------------------------------------------------------- gathered again

  lemma {:induction false} GatherConcat(m: Pager, a: seq<Cell>, b: seq<Cell>)
    requires forall i | 0 <= i < |a| :: a[i].leftChild in m
    ensures GatherCells(m, a + b) == GatherCells(m, a) + GatherCells(m, b)
    decreases |a|
  {
    if a == [] {
      assert a + b == b;
    } else {
      assert (a + b)[1..] == a[1..] + b;
      assert forall i | 0 <= i < |a[1..]| :: a[1..][i] == a[i + 1];
      GatherConcat(m, a[1..], b);
      Associate(m[a[0].leftChild].apCell + [Cell(m[a[0].leftChild].rightChild, a[0].item)], GatherCells(m, a[1..]), GatherCells(m, b));
    }
  }

  lemma {:induction false} DividersKnown(m: Pager, l: Layout, n: nat)
    requires Ok(l) && n < |l.cnt| && forall i | 0 <= i < n :: LaidAt(m, l, i)
    ensures forall i | 0 <= i < n :: Dividers(l, n)[i].leftChild in m
  {
    if n > 0 {
      DividersKnown(m, l, n - 1);
      assert LaidAt(m, l, n - 1);
    }
  }

  lemma OneGathered(m: Pager, l: Layout, i: nat)
    requires Ok(l) && i < |l.cnt| - 1 && LaidAt(m, l, i)
    ensures CutAt(|l.row|, l.cnt, i) && GatherCells(m, [Divider(l, i)]) == l.row[Start(l.cnt, i)..l.cnt[i] + 1]
  {
    assert CutAt(|l.row|, l.cnt, i);
    assert [Divider(l, i)][1..] == [];
    assert l.row[Start(l.cnt, i)..l.cnt[i] + 1] == l.row[Start(l.cnt, i)..l.cnt[i]] + [l.row[l.cnt[i]]];
  }

  /** Gathering the new siblings gives back the row. */
  lemma {:induction false} GatheredPrefix(m: Pager, l: Layout, n: nat)
    requires Ok(l) && n < |l.cnt| && forall i | 0 <= i < n :: LaidAt(m, l, i)
    ensures CutAt(|l.row|, l.cnt, n) && GatherCells(m, Dividers(l, n)) == l.row[..Start(l.cnt, n)]
  {
    assert CutAt(|l.row|, l.cnt, n);
    if n > 0 {
      GatheredPrefix(m, l, n - 1);
      assert LaidAt(m, l, n - 1);
      OneGathered(m, l, n - 1);
      DividersKnown(m, l, n - 1);
      GatherConcat(m, Dividers(l, n - 1), [Divider(l, n - 1)]);
      assert CutAt(|l.row|, l.cnt, n - 1);
      Slices(l.row, Start(l.cnt, n - 1), l.cnt[n - 1] + 1);
    }
  }

  lemma Slices<T>(s: seq<T>, a: int, b: int)
    requires 0 <= a <= b <= |s|
    ensures s[..a] + s[a..b] == s[..b]
  {}

  lemma Regathered(m: Pager, l: Layout)
    requires Ok(l) && forall i | 0 <= i < |l.cnt| :: LaidAt(m, l, i)
    ensures var last := l.news[|l.cnt| - 1];
      Row(m, Dividers(l, |l.cnt| - 1), last) == l.row && Tail(m, last) == l.tail
  {
    var n := |l.cnt| - 1;
    GatheredPrefix(m, l, n);
    assert LaidAt(m, l, n);
    Slices(l.row, Start(l.cnt, n), |l.row|);
  }
}

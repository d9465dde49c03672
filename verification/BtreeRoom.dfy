/** How much a page in work may hold, and why balance's fixed arrays are long enough. */
module BtreeRoom {
  import opened Sequences
  import opened FileFormat
  import opened BtreeShape
  import opened BtreeGather
  import opened BtreeSiblings
  import opened BtreeResettled
  import opened BtreeLayout
  import opened BtreeSettle
  import opened BtreeGroup
  import opened BtreeSound
  import opened BalanceSplit

  /** Cells that fit on a page; its array of cells is two longer. */
  const MX_CELL := USABLE_SPACE / MIN_CELL_SIZE

  /** A page in work may be overfull, but not by more than one balance of its children, or one insert, can bring about. */
  ghost predicate Crowded(cells: seq<Cell>) {
    PageBytes(cells) <= OVERFULL && |cells| <= MX_CELL + 1
  }

  // ---------------------------------------------------------------- bytes of cells side by side

  lemma BytesBounds(cells: seq<Cell>)
    ensures MIN_CELL_SIZE * |cells| <= PageBytes(cells) <= MAX_CELL_SIZE * |cells|
  {
    SizesRange(cells);
    SumBounds(Sizes(cells), 0, |cells|);
    SumAtMost(Sizes(cells), 0, |cells|);
  }

  /** A page that fits holds no more than MX_CELL cells. */
  lemma CellCount(cells: seq<Cell>)
    requires PageBytes(cells) <= USABLE_SPACE
    ensures |cells| <= MX_CELL
  {
    BytesBounds(cells);
  }

  /** Some cells of a page that fits are exchanged for others, one more at most and no more than NB. */
  lemma Exchanged(pre: seq<Cell>, olds: seq<Cell>, news: seq<Cell>, post: seq<Cell>, post': seq<Cell>)
    requires PageBytes(pre + olds + post) <= USABLE_SPACE && |news| <= |olds| + 1 <= NB
    requires Sizes(post') == Sizes(post)
    ensures Crowded(pre + news + post')
  {
    BytesConcat(pre + olds, post);
    BytesConcat(pre, olds);
    BytesConcat(pre + news, post');
    BytesConcat(pre, news);
    assert |post'| == |Sizes(post')| == |post|;
    assert PageBytes(post') == PageBytes(post);
    BytesBounds(olds);
    BytesBounds(news);
    CellCount(pre + olds + post);
  }

  // ---------------------------------------------------------------- the row of a group

  lemma RowOfTwo(a: seq<Cell>, x: Cell, b: seq<Cell>)
    ensures var sz := Sizes(a + [x] + b);
      Sum(sz, 0, |a|) == PageBytes(a) && Sum(sz, |a| + 1, |sz|) == PageBytes(b)
  {
    var s := a + [x] + b;
    SliceBytes(s, 0, |a|);
    SliceBytes(s, |a| + 1, |s|);
    assert s[0..|a|] == a && s[|a| + 1..|s|] == b;
  }

  lemma RowOfThree(a: seq<Cell>, x: Cell, b: seq<Cell>, y: Cell, c: seq<Cell>)
    ensures var sz, i, j := Sizes(a + [x] + b + [y] + c), |a|, |a| + 1 + |b|;
      Sum(sz, 0, i) == PageBytes(a) && Sum(sz, i + 1, j) == PageBytes(b) && Sum(sz, j + 1, |sz|) == PageBytes(c)
  {
    var s := a + [x] + b + [y] + c;
    Slices(a, [x], b, [y], c);
    SumOfSlice(s, 0, |a|, a);
    SumOfSlice(s, |a| + 1, |a| + 1 + |b|, b);
    SumOfSlice(s, |a| + 1 + |b| + 1, |s|, c);
  }

  lemma Slices<T>(a: seq<T>, x: seq<T>, b: seq<T>, y: seq<T>, c: seq<T>)
    ensures var s, i, j := a + x + b + y + c, |a| + |x|, |a| + |x| + |b| + |y|;
      s[0..|a|] == a && s[i..i + |b|] == b && s[j..|s|] == c
  {
    var s := a + x + b + y + c;
    assert s == (a + x) + (b + (y + c));
  }

  lemma SumOfSlice(s: seq<Cell>, i: nat, j: nat, part: seq<Cell>)
    requires i <= j <= |s| && s[i..j] == part
    ensures Sum(Sizes(s), i, j) == PageBytes(part)
  {
    SliceBytes(s, i, j);
  }

  /** The pages of a group: all in use, all fit but for p. */
  ghost predicate OneCrowded(m: Pager, olds: seq<Pgno>, p: Pgno) {
    forall q | q in olds :: q in m && PageBytes(m[q].apCell) <= if q == p then OVERFULL else USABLE_SPACE
  }

  /** n pages of a group, one of them overfull, become n + 1 at most. */
  lemma GroupRoom(m: Pager, divs: seq<Cell>, last: Pgno, p: Pgno)
    requires |divs| < NB && Distinct(Members(divs, last)) && OneCrowded(m, Members(divs, last), p)
    ensures Room(Sizes(Row(m, divs, last)), |divs| + 2)
  {
    var row, olds := Row(m, divs, last), Members(divs, last);
    SizesRange(row);
    assert olds[|olds| - 1] == last;
    if |divs| == 0 {
      assert row == m[last].apCell;
      RoomOfOne(Sizes(row));
    } else if |divs| == 1 {
      PairRoom(m, divs, last, p);
    } else {
      TripleRoom(m, divs, last, p);
    }
  }

  lemma PairRoom(m: Pager, divs: seq<Cell>, last: Pgno, p: Pgno)
    requires |divs| == 1 && Distinct(Members(divs, last)) && OneCrowded(m, Members(divs, last), p)
    ensures Room(Sizes(Row(m, divs, last)), 3)
  {
    var d, olds := divs[0].leftChild, Members(divs, last);
    OneLeft(divs);
    assert olds == [d, last];
    assert olds[0] == d && olds[1] == last;
    var x := Cell(m[d].rightChild, divs[0].item);
    assert GatherCells(m, divs[1..]) == [];
    assert Row(m, divs, last) == m[d].apCell + [x] + m[last].apCell;
    SizesRange(Row(m, divs, last));
    RowOfTwo(m[d].apCell, x, m[last].apCell);
    RoomOfTwo(Sizes(Row(m, divs, last)), |m[d].apCell|);
  }

  lemma TripleRoom(m: Pager, divs: seq<Cell>, last: Pgno, p: Pgno)
    requires |divs| == 2 && Distinct(Members(divs, last)) && OneCrowded(m, Members(divs, last), p)
    ensures Room(Sizes(Row(m, divs, last)), 4)
  {
    var d, e, olds := divs[0].leftChild, divs[1].leftChild, Members(divs, last);
    assert divs[1..][0] == divs[1];
    OneLeft(divs[1..]);
    assert olds == [d, e, last];
    assert olds[0] == d && olds[1] == e && olds[2] == last;
    var x, y := Cell(m[d].rightChild, divs[0].item), Cell(m[e].rightChild, divs[1].item);
    assert GatherCells(m, divs[1..][1..]) == [];
    assert GatherCells(m, divs[1..]) == m[e].apCell + [y];
    RoomOfRow(m[d].apCell, x, m[e].apCell, y, m[last].apCell, Row(m, divs, last));
  }

  lemma OneLeft(divs: seq<Cell>)
    requires |divs| == 1
    ensures Lefts(divs) == [divs[0].leftChild]
  {
    assert Lefts(divs[1..]) == [];
  }

  lemma Regrouped<T>(a: seq<T>, x: seq<T>, b: seq<T>, y: seq<T>, c: seq<T>)
    ensures a + x + (b + y) + c == a + x + b + y + c
  {}

  lemma RoomOfRow(a: seq<Cell>, x: Cell, b: seq<Cell>, y: Cell, c: seq<Cell>, row: seq<Cell>)
    requires row == a + [x] + (b + [y]) + c && Bytes3(PageBytes(a), PageBytes(b), PageBytes(c))
    ensures Room(Sizes(row), 4)
  {
    Regrouped(a, [x], b, [y], c);
    SizesRange(row);
    RowOfThree(a, x, b, y, c);
    RoomOfThree(Sizes(row), |a|, |a| + 1 + |b|);
  }

  /** In a tree sound but for p and the parent, the group is as the room lemmas want it. */
  lemma GroupCrowded(m: Pager, g: Ctx, pre: seq<Cell>, divs: seq<Cell>, last: Pgno, h: nat, b: multiset<Pgno>, p: Pgno, root: Pgno)
    requires h > 0 && !g.Top? && LooseAt(m, WithLeft(g, pre + divs), last, h) && Pages(m, WithLeft(g, pre + divs), last, h) == b
    requires SoundBut(m, b, {p, g.pg}, root) && p in m && PageBytes(m[p].apCell) <= OVERFULL
    requires g.pg !in Members(divs, last) && forall q | q in Members(divs, last) :: q in m
    ensures OneCrowded(m, Members(divs, last), p)
  {
    GroupParts(m, g, pre, divs, last, h);
    WholeIsOthers(m, g, pre, divs, last, h);
    MembersCrowded(m, Others(m, g, pre, divs, last, h), Members(divs, last), b, p, g.pg, root);
  }

  lemma MembersCrowded(m: Pager, others: multiset<Pgno>, olds: seq<Pgno>, b: multiset<Pgno>, p: Pgno, par: Pgno, root: Pgno)
    requires b == others + multiset(olds) && SoundBut(m, b, {p, par}, root) && p in m && PageBytes(m[p].apCell) <= OVERFULL
    requires par !in olds && forall q | q in olds :: q in m
    ensures OneCrowded(m, olds, p)
  {
    forall q | q in olds ensures q in m && PageBytes(m[q].apCell) <= if q == p then OVERFULL else USABLE_SPACE {
      assert q in multiset(olds);
      if q != p { assert SoundAt(m, q, root); }
    }
  }

  /** The parent after the round. */
  lemma ParentCrowded(m: Pager, m1: Pager, m3: Pager, l: Layout, g: Ctx, divs: seq<Cell>, last: Pgno, h: nat)
    requires h > 0 && !g.Top? && Planned(m, l, g, divs, last, h) && Dealt(m, m1, l, g, Members(divs, last))
    requires g == WithLeft(g, l.pre + divs) && g.pg in m && PageBytes(m[g.pg].apCell) <= USABLE_SPACE
    requires |l.cnt| <= |divs| + 2 <= NB + 1 && m3 == AfterAdoptions(m1, l, g)
    ensures g.pg in m3 && Crowded(m3[g.pg].apCell)
  {
    GroupIs(m, g, l.pre, divs, last, h);
    Halfway(m, m1, l, g, Members(divs, last), h);
    ParentFate(m, m1, l, g, Members(divs, last), h);
    NewParentCrowded(m, l, g, divs, last, h);
  }

  lemma NewParentCrowded(m: Pager, l: Layout, g: Ctx, divs: seq<Cell>, last: Pgno, h: nat)
    requires h > 0 && !g.Top? && Ok(l) && LooseAt(m, WithLeft(g, l.pre + divs), last, h)
    requires g == WithLeft(g, l.pre + divs) && g.pg in m && PageBytes(m[g.pg].apCell) <= USABLE_SPACE
    requires |l.cnt| <= |divs| + 2 <= NB + 1
    ensures Crowded(NewParent(l, g).apCell)
  {
    var n := |l.cnt| - 1;
    assert m[g.pg] == ParentPage(g, last);
    if g.InCell? {
      ExchangedAround(l.pre, divs, Dividers(l, n), Cell(last, g.item), Cell(LastOf(l), g.item), g.rest, m[g.pg].apCell, NewParent(l, g).apCell);
    } else {
      assert m[g.pg].apCell == l.pre + divs + [];
      assert NewParent(l, g).apCell == l.pre + Dividers(l, n) + [];
      Exchanged(l.pre, divs, Dividers(l, n), [], []);
    }
  }

  lemma ExchangedAround(pre: seq<Cell>, olds: seq<Cell>, news: seq<Cell>, x: Cell, x': Cell, rest: seq<Cell>,
                        cells: seq<Cell>, cells': seq<Cell>)
    requires cells == pre + olds + [x] + rest && cells' == pre + news + [x'] + rest && x.item == x'.item
    requires PageBytes(cells) <= USABLE_SPACE && |news| <= |olds| + 1 <= NB
    ensures Crowded(cells')
  {
    var post, post' := [x] + rest, [x'] + rest;
    assert Sizes(post') == Sizes(post);
    assert cells == pre + olds + post && cells' == pre + news + post';
    Exchanged(pre, olds, news, post, post');
  }
}

/** Back pointers: every page tells its children that it is their parent. */
module BtreeAdopt {
  import opened FileFormat
  import opened BtreeShape
  import opened BtreeGather
  import opened BtreeSiblings
  import opened BtreeLayout
  import opened BalanceSplit

  function Children(pg: MemPage): seq<Pgno> {
    Lefts(pg.apCell) + [pg.rightChild]
  }

  /** The named pages, where they exist, have parent par. */
  function Adopted(m: Pager, kids: seq<Pgno>, par: Pgno): Pager {
    map q | q in m :: if q != 0 && q in kids then m[q].(pParent := par) else m[q]
  }

  ghost function KidsOf(m: Pager, q: Pgno): seq<Pgno> {
    if q in m then Children(m[q]) else []
  }

  /** The first n new pages adopt their children, one page after the other. */
  ghost function AdoptedAll(m: Pager, news: seq<Pgno>, n: nat): Pager
    requires n <= |news|
  {
    if n == 0 then m
    else var m1 := AdoptedAll(m, news, n - 1); Adopted(m1, KidsOf(m1, news[n - 1]), news[n - 1])
  }

  ghost predicate SameButParents(m: Pager, m': Pager) {
    m'.Keys == m.Keys && forall q {:trigger OnlyParent(m, m', q)} | q in m :: OnlyParent(m, m', q)
  }

  /** No subtree hangs in two places. */
  ghost predicate KidsApartFrom(kids: seq<Pgno>) {
    forall i, j | 0 <= i < j < |kids| && kids[i] != 0 :: kids[i] != kids[j]
  }

  /** The kids from a up to b, where they exist, have parent par. */
  ghost predicate SliceOwned(m: Pager, kids: seq<Pgno>, a: int, b: int, par: Pgno)
  {
    0 <= a <= b <= |kids| && forall j | a <= j < b && kids[j] != 0 && kids[j] in m :: m[kids[j]].pParent == par
  }

  lemma LefsOfSlice(row: seq<Cell>, a: int, b: int)
    requires 0 <= a <= b <= |row|
    ensures |Lefts(row)| == |row| && Lefts(row[a..b]) == Lefts(row)[a..b]
  {
    LeftsAt(row);
    LeftsAt(row[a..b]);
  }

  /** The children of new page i are a slice of the kids. */
  lemma ChildrenAre(m: Pager, l: Layout, i: int)
    requires Ok(l) && 0 <= i < |l.cnt| && LaidAt(m, l, i)
    ensures CutAt(|l.row|, l.cnt, i) && |Kids(l.row, l.tail)| == |l.row| + 1
    ensures Children(m[l.news[i]]) == Kids(l.row, l.tail)[Start(l.cnt, i)..l.cnt[i] + 1]
  {
    var a, b := Start(l.cnt, i), l.cnt[i];
    assert CutAt(|l.row|, l.cnt, i);
    LefsOfSlice(l.row, a, b);
    LeftsAt(l.row);
    assert Kids(l.row, l.tail)[b] == PageRight(l, i);
    assert Kids(l.row, l.tail)[a..b] == Lefts(l.row)[a..b];
    SliceSnoc(Kids(l.row, l.tail), a, b);
  }

  lemma SliceSnoc<T>(s: seq<T>, a: int, b: int)
    requires 0 <= a <= b < |s|
    ensures s[a..b + 1] == s[a..b] + [s[b]]
  {}

  lemma {:induction false} StartsRise(l: Layout, a: int, b: int)
    requires Ok(l) && 0 <= a < b < |l.cnt|
    ensures l.cnt[a] + 1 <= Start(l.cnt, b)
    decreases b
  {
    if a < b - 1 {
      StartsRise(l, a, b - 1);
      assert CutAt(|l.row|, l.cnt, b - 1);
    }
  }

  /** What n adoptions have done: only parents changed, only of kids, and page a < n owns its slice. */
  ghost predicate AdoptedSoFar(m: Pager, m': Pager, l: Layout, n: nat)
    requires Ok(l) && n <= |l.cnt|
  {
    && SameButParents(m, m')
    && (forall q :: Spared(m, m', q, Kids(l.row, l.tail)))
    && forall a | 0 <= a < n :: PageOwns(m', l, a)
  }

  /** A page that is no kid keeps even its parent. */
  ghost predicate Spared(m: Pager, m': Pager, q: Pgno, kids: seq<Pgno>) {
    q in m && (q == 0 || q !in kids) ==> q in m' && m'[q] == m[q]
  }

  ghost predicate PageOwns(m: Pager, l: Layout, a: int)
    requires 0 <= a < |l.cnt| && a < |l.news|
  {
    SliceOwned(m, Kids(l.row, l.tail), Start(l.cnt, a), l.cnt[a] + 1, l.news[a])
  }

  lemma LaidStays(m: Pager, m': Pager, l: Layout, i: int)
    requires Ok(l) && 0 <= i < |l.cnt| && LaidAt(m, l, i) && SameButParents(m, m')
    ensures LaidAt(m', l, i)
  {
    assert OnlyParent(m, m', l.news[i]);
  }

  lemma {:induction false} AllAdopt(m: Pager, l: Layout, n: nat)
    requires Ok(l) && n <= |l.cnt| && KidsApartFrom(Kids(l.row, l.tail)) && AllLaid(m, l)
    ensures AdoptedSoFar(m, AdoptedAll(m, l.news, n), l, n)
    decreases n
  {
    if n == 0 {
      NoneAdopted(m, l);
    } else {
      AllAdopt(m, l, n - 1);
      NextAdopts(m, l, n - 1, n, AdoptedAll(m, l.news, n - 1), AdoptedAll(m, l.news, n));
    }
  }

  ghost predicate AllLaid(m: Pager, l: Layout)
    requires Ok(l)
  {
    forall i | 0 <= i < |l.cnt| :: LaidAt(m, l, i)
  }

  lemma NextAdopts(m: Pager, l: Layout, n: nat, next: nat, m1: Pager, m2: Pager)
    requires Ok(l) && n < |l.cnt| && KidsApartFrom(Kids(l.row, l.tail)) && AllLaid(m, l) && next == n + 1
    requires AdoptedSoFar(m, m1, l, n) && m1 == AdoptedAll(m, l.news, n) && m2 == AdoptedAll(m, l.news, next)
    ensures AdoptedSoFar(m, m2, l, next)
  {
    assert LaidAt(m, l, n);
    StepAdopts(m, m1, m2, l, n);
  }

  lemma NoneAdopted(m: Pager, l: Layout)
    requires Ok(l)
    ensures AdoptedSoFar(m, m, l, 0)
  {
    forall q | q in m ensures OnlyParent(m, m, q) {}
  }

  lemma StepAdopts(m: Pager, m1: Pager, m2: Pager, l: Layout, n: nat)
    requires Ok(l) && n < |l.cnt| && KidsApartFrom(Kids(l.row, l.tail)) && LaidAt(m, l, n)
    requires AdoptedSoFar(m, m1, l, n) && m2 == Adopted(m1, KidsOf(m1, l.news[n]), l.news[n])
    ensures AdoptedSoFar(m, m2, l, n + 1)
  {
    LaidStays(m, m1, l, n);
    ChildrenAre(m1, l, n);
    SliceAdopts(m, m1, m2, l, n);
  }

  lemma SliceAdopts(m: Pager, m1: Pager, m2: Pager, l: Layout, n: nat)
    requires Ok(l) && n < |l.cnt| && CutAt(|l.row|, l.cnt, n) && |Kids(l.row, l.tail)| == |l.row| + 1
    requires KidsApartFrom(Kids(l.row, l.tail)) && AdoptedSoFar(m, m1, l, n)
    requires m2 == Adopted(m1, Kids(l.row, l.tail)[Start(l.cnt, n)..l.cnt[n] + 1], l.news[n])
    ensures AdoptedSoFar(m, m2, l, n + 1)
  {
    OneAdopts(m, m1, m2, l, n);
    SlicesKept(m1, m2, l, n);
  }

  lemma SlicesKept(m1: Pager, m2: Pager, l: Layout, n: nat)
    requires Ok(l) && n < |l.cnt| && CutAt(|l.row|, l.cnt, n)
    requires KidsApartFrom(Kids(l.row, l.tail)) && |Kids(l.row, l.tail)| == |l.row| + 1
    requires forall a | 0 <= a < n :: PageOwns(m1, l, a)
    requires m2 == Adopted(m1, Kids(l.row, l.tail)[Start(l.cnt, n)..l.cnt[n] + 1], l.news[n])
    ensures forall a | 0 <= a < n :: PageOwns(m2, l, a)
  {
    forall a | 0 <= a < n ensures PageOwns(m2, l, a) {
      assert PageOwns(m1, l, a);
      StartsRise(l, a, n);
      SliceKept(m1, m2, l, a, n);
    }
  }

  lemma OneAdopts(m: Pager, m1: Pager, m2: Pager, l: Layout, n: nat)
    requires Ok(l) && n < |l.cnt| && CutAt(|l.row|, l.cnt, n) && |Kids(l.row, l.tail)| == |l.row| + 1
    requires AdoptedSoFar(m, m1, l, n)
    requires m2 == Adopted(m1, Kids(l.row, l.tail)[Start(l.cnt, n)..l.cnt[n] + 1], l.news[n])
    ensures SameButParents(m, m2) && PageOwns(m2, l, n)
    ensures forall q :: Spared(m, m2, q, Kids(l.row, l.tail))
  {
    var kids := Kids(l.row, l.tail);
    var s := kids[Start(l.cnt, n)..l.cnt[n] + 1];
    forall j | Start(l.cnt, n) <= j < l.cnt[n] + 1 ensures kids[j] in s {
      assert kids[j] == s[j - Start(l.cnt, n)];
    }
    forall q | q in m ensures OnlyParent(m, m2, q) {
      assert OnlyParent(m, m1, q);
    }
    forall q ensures Spared(m, m2, q, kids) {
      assert Spared(m, m1, q, kids);
    }
  }

  lemma SliceKept(m1: Pager, m2: Pager, l: Layout, a: int, n: nat)
    requires Ok(l) && 0 <= a < n < |l.cnt| && CutAt(|l.row|, l.cnt, n) && l.cnt[a] + 1 <= Start(l.cnt, n)
    requires KidsApartFrom(Kids(l.row, l.tail)) && |Kids(l.row, l.tail)| == |l.row| + 1 && PageOwns(m1, l, a)
    requires m2 == Adopted(m1, Kids(l.row, l.tail)[Start(l.cnt, n)..l.cnt[n] + 1], l.news[n])
    ensures PageOwns(m2, l, a)
  {
    assert CutAt(|l.row|, l.cnt, a);
    var kids := Kids(l.row, l.tail);
    var s := kids[Start(l.cnt, n)..l.cnt[n] + 1];
    forall j | Start(l.cnt, a) <= j < l.cnt[a] + 1 && kids[j] != 0 && kids[j] in m2
      ensures m2[kids[j]].pParent == l.news[a]
    {
      assert kids[j] !in s;
    }
  }

  ghost predicate AdoptedTo(m: Pager, m1: Pager, news: seq<Pgno>, n: nat) {
    n <= |news| && m1 == AdoptedAll(m, news, n)
  }

  lemma AdoptedOne(m: Pager, m1: Pager, m2: Pager, news: seq<Pgno>, n: nat)
    requires AdoptedTo(m, m1, news, n) && n < |news| && news[n] in m1 && m2 == Adopted(m1, Children(m1[news[n]]), news[n])
    ensures AdoptedTo(m, m2, news, n + 1)
  {}

  /** However many adoptions, only parents change. */
  lemma {:induction false} AdoptedAllShape(m: Pager, news: seq<Pgno>, n: nat)
    requires n <= |news|
    ensures SameButParents(m, AdoptedAll(m, news, n))
  {
    if n > 0 {
      AdoptedAllShape(m, news, n - 1);
      var m1 := AdoptedAll(m, news, n - 1);
      forall q | q in m ensures OnlyParent(m, AdoptedAll(m, news, n), q) {
        assert OnlyParent(m, m1, q);
      }
    } else {
      forall q | q in m ensures OnlyParent(m, AdoptedAll(m, news, n), q) {}
    }
  }
}

/** Bytes on a page: cell sizes, and pages neither overfull nor needlessly empty. */
module BtreeSound {
  import opened FileFormat
  import opened BtreeShape
  import opened BalanceSplit

  /** Bytes a cell takes on its page: header, local payload, overflow page number. */
  function CellSize(item: Payload): nat {
    CellBytes(|item.key| + |item.data|)
  }

  lemma CellSizeRange(item: Payload)
    ensures MIN_CELL_SIZE <= CellSize(item) <= MAX_CELL_SIZE && CellSize(item) % 4 == 0
  {}

  function Sizes(cells: seq<Cell>): (r: seq<int>)
    ensures |r| == |cells| && forall i | 0 <= i < |cells| :: r[i] == CellSize(cells[i].item)
  {
    seq(|cells|, i requires 0 <= i < |cells| => CellSize(cells[i].item))
  }

  lemma SizesRange(cells: seq<Cell>)
    ensures CellSizes(Sizes(cells))
  {
    forall i | 0 <= i < |cells| ensures MIN_CELL_SIZE <= Sizes(cells)[i] <= MAX_CELL_SIZE {
      CellSizeRange(cells[i].item);
    }
  }

  ghost function PageBytes(cells: seq<Cell>): int {
    Sum(Sizes(cells), 0, |cells|)
  }

  /** The bytes of a stretch of cells. */
  lemma {:induction false} SliceBytes(cells: seq<Cell>, a: nat, b: nat)
    requires a <= b <= |cells|
    ensures PageBytes(cells[a..b]) == Sum(Sizes(cells), a, b)
    decreases b
  {
    if a < b {
      SliceBytes(cells, a, b - 1);
      var s, t := cells[a..b], cells[a..b - 1];
      assert t == s[..|s| - 1];
      PrefixSum(Sizes(s), Sizes(t), |t|);
    }
  }

  lemma {:induction false} PrefixSum(s: seq<int>, t: seq<int>, n: nat)
    requires n <= |s| && n <= |t| && forall i | 0 <= i < n :: s[i] == t[i]
    ensures Sum(s, 0, n) == Sum(t, 0, n)
    decreases n
  {
    if n > 0 { PrefixSum(s, t, n - 1); }
  }

  lemma {:induction false} SumAtMost(sz: seq<int>, a: nat, b: nat)
    requires a <= b <= |sz| && CellSizes(sz)
    ensures Sum(sz, a, b) <= MAX_CELL_SIZE * (b - a)
    decreases b
  {
    if a < b { SumAtMost(sz, a, b - 1); }
  }

  lemma BytesConcat(a: seq<Cell>, b: seq<Cell>)
    ensures PageBytes(a + b) == PageBytes(a) + PageBytes(b)
  {
    var s := a + b;
    SumSplit(Sizes(s), 0, |a|, |s|);
    SliceBytes(s, 0, |a|);
    SliceBytes(s, |a|, |s|);
    assert s[0..|a|] == a && s[|a|..|s|] == b;
  }

  /** Page q holds what fits, and is empty only if it is the root of an empty tree. */
  ghost predicate SoundAt(m: Pager, q: Pgno, root: Pgno) {
    q in m ==> PageBytes(m[q].apCell) <= USABLE_SPACE && (q != root || m[q].rightChild != 0 ==> m[q].apCell != [])
  }

  /** All pages of the tree are sound, but for those in work. */
  ghost predicate SoundBut(m: Pager, b: multiset<Pgno>, work: set<Pgno>, root: Pgno) {
    forall q | q in b && q !in work :: SoundAt(m, q, root)
  }

  ghost predicate Sound(m: Pager, b: multiset<Pgno>, root: Pgno) {
    forall q | q in b :: SoundAt(m, q, root)
  }
}

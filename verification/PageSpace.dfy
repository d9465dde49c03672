/** Space on a page: first fit with coalescing, defragmentation when needed, and cells put in and taken out. */
module PageSpace {
  import opened FileFormat
  import opened PageTiles
  import opened PageMemory
  import opened PageCells
  import opened PageInit
  import opened Wrappers

  // ---------------------------------------------------------------- defragmentation

  /** Where cell j goes when all cells are stacked behind the header. */
  ghost function Pos(c: seq<Blk>, j: nat): int
    requires j <= |c|
  {
    PAGE_HDR + TotalSize(c[..j])
  }

  ghost function Stack(c: seq<Blk>): (t: seq<Blk>)
    ensures |t| == |c| && forall j | 0 <= j < |c| :: t[j] == Blk(Pos(c, j), c[j].size)
  {
    seq(|c|, j requires 0 <= j < |c| => Blk(Pos(c, j), c[j].size))
  }

  lemma PosNext(c: seq<Blk>, j: nat)
    requires j < |c|
    ensures Pos(c, j + 1) == Pos(c, j) + c[j].size
  {
    SumLast(c[..j + 1]);
    assert c[..j + 1][..j] == c[..j];
  }

  lemma {:induction false} PosRises(c: seq<Blk>, i: nat, j: nat)
    requires AllAligned(c) && i <= j <= |c|
    ensures PAGE_HDR <= Pos(c, i) <= Pos(c, j) && Pos(c, i) % 4 == 0
    ensures Pos(c, j) == PAGE_HDR + TotalSize(c) - TotalSize(c[j..])
    decreases j
  {
    SumSplit(c, j);
    if i < j {
      PosRises(c, i, j - 1);
      PosNext(c, j - 1);
      assert Aligned(c[j - 1]);
    } else if j > 0 {
      PosRises(c, j - 1, j - 1);
      PosNext(c, j - 1);
      assert Aligned(c[j - 1]);
    } else {
      assert c[..0] == [];
    }
  }

  lemma SumNonneg(c: seq<Blk>)
    requires AllAligned(c)
    ensures 0 <= TotalSize(c)
  {
    PosRises(c, 0, |c|);
    assert c[..|c|] == c && c[|c|..] == [];
  }

  /** Stacked cells fit: they take what they took before. */
  lemma StackFits(c: seq<Blk>, j: nat)
    requires AllAligned(c) && TotalSize(c) <= USABLE_SPACE && j < |c|
    ensures Aligned(Stack(c)[j]) && Pos(c, j + 1) <= PAGE_HDR + TotalSize(c)
  {
    PosRises(c, j, j + 1);
    PosNext(c, j);
    assert Aligned(c[j]);
    var r := c[j + 1..];
    forall i | 0 <= i < |r| ensures Aligned(r[i]) { assert r[i] == c[j + 1 + i]; }
    SumNonneg(r);
  }

  lemma {:induction false} StackStacked(c: seq<Blk>, at: int, t: seq<Blk>)
    requires AllAligned(c) && |t| == |c| && forall j | 0 <= j < |c| :: t[j] == Blk(at + TotalSize(c[..j]), c[j].size)
    ensures Stacked(t, at) && TotalSize(t) == TotalSize(c)
    decreases |c|
  {
    if c != [] {
      assert c[..0] == [] && Aligned(c[0]);
      var d := c[1..];
      forall j | 0 <= j < |d| ensures t[1..][j] == Blk(at + c[0].size + TotalSize(d[..j]), d[j].size) && Aligned(d[j]) {
        assert c[..j + 1] == [c[0]] + d[..j];
        assert c[..j + 1][1..] == d[..j];
        assert d[j] == c[j + 1];
      }
      StackStacked(d, at + c[0].size, t[1..]);
    }
  }

  /** Stacked cells before one free block tile the page. */
  lemma StackTiles(c: seq<Blk>, n: int)
    requires AllAligned(c) && n > 0 && TotalSize(c) + n == USABLE_SPACE
    ensures Tiled([Blk(SQLITE_USABLE_SIZE - n, n)], Stack(c))
  {
    var t := Stack(c);
    StackStacked(c, PAGE_HDR, t);
    forall j | 0 <= j < |t| ensures Aligned(t[j]) { StackFits(c, j); }
    PosRises(c, |c|, |c|);
    assert c[..|c|] == c;
    TiledStacked(t, n);
  }

  /** Cells up to i are copied to their new places, links apart. */
  ghost predicate Copied(np: seq<Word>, c: seq<Blk>, s: seq<seq<Word>>, i: nat) {
    |np| == WORDS && AllAligned(c) && TotalSize(c) <= USABLE_SPACE && |s| == |c| && i <= |c|
    && forall j | 0 <= j < i :: CopiedAt(np, c, s, j)
  }

  ghost predicate CopiedAt(np: seq<Word>, c: seq<Blk>, s: seq<seq<Word>>, j: nat)
    requires |np| == WORDS && j < |c| && |s| == |c|
  {
    var t := Stack(c)[j];
    Aligned(t) && Content(np, t) == s[j]
  }

  /** Words before cell i's new place stay when cell i is copied. */
  lemma CopyStep(np: seq<Word>, np1: seq<Word>, c: seq<Blk>, s: seq<seq<Word>>, i: nat)
    requires Copied(np, c, s, i) && i < |c| && Aligned(Stack(c)[i]) && OnlyIn(np, np1, Stack(c)[i])
    requires Content(np1, Stack(c)[i]) == s[i]
    ensures Copied(np1, c, s, i + 1)
  {
    forall j | 0 <= j < i ensures CopiedAt(np1, c, s, j) {
      assert CopiedAt(np, c, s, j);
      PosNext(c, j);
      PosRises(c, j + 1, i);
      OutsideSame(np, np1, Stack(c)[i], Stack(c)[j]);
      SameChunk(np, np1, Stack(c)[j]);
    }
  }

  lemma SameChunk(u: seq<Word>, v: seq<Word>, b: Blk)
    requires |u| == WORDS && |v| == WORDS && Aligned(b) && SameWords(u, v, b)
    ensures Chunk(v, b) == Chunk(u, b)
  {}

  /** A copied cell has the size it had. */
  lemma CopiedExtent(np: seq<Word>, u: seq<Word>, off: int, t: Blk)
    requires |np| == WORDS && |u| == WORDS && CellPlace(off) && Aligned(Extent(u, off)) && Aligned(t)
    requires t.size == Extent(u, off).size && Content(np, t) == Content(u, Extent(u, off))
    ensures CellPlace(t.start) && Extent(np, t.start) == t
  {
    var b := Extent(u, off);
    Halves(b);
    Halves(t);
    var x, y := Chunk(np, t), Chunk(u, b);
    var p, q := u[off / 2..off / 2 + 6], np[t.start / 2..t.start / 2 + 6];
    forall j | 0 <= j < 6 && j != INEXT ensures p[j] == q[j] {
      assert q[j] == x[j] == Masked(x)[j] == Masked(y)[j] == y[j] == p[j];
    }
    SizeSame(p, q);
  }

  lemma SizeSame(x: seq<Word>, y: seq<Word>)
    requires |x| == 6 && |y| == 6 && forall j | 0 <= j < 6 && j != INEXT :: x[j] == y[j]
    ensures SizeOf(x) == SizeOf(y)
  {}

  /** All cells stacked, and one free block behind them: the page is in order, with the same cells. */
  lemma StackOk(u: seq<Word>, ap: seq<CellPtr>, f: seq<Blk>, nFree: int, v: seq<Word>, ap1: seq<CellPtr>)
    requires PageOk(u, ap, f, nFree) && nFree > 0 && Copied(v, Extents(u, ap), CellContents(u, ap), |ap|)
    requires |ap1| == |ap| && forall j | 0 <= j < |ap| :: ap1[j] == OnPage(Pos(Extents(u, ap), j))
    requires FreeList(v, [Blk(SQLITE_USABLE_SIZE - nFree, nFree)])
    ensures PageOk(v, ap1, [Blk(SQLITE_USABLE_SIZE - nFree, nFree)], nFree)
    ensures CellContents(v, ap1) == CellContents(u, ap)
  {
    var c := Extents(u, ap);
    forall j | 0 <= j < |ap| ensures CellPlace(ap1[j].off) && Extent(v, ap1[j].off) == Stack(c)[j] {
      assert CopiedAt(v, c, CellContents(u, ap), j) && Aligned(c[j]);
      CopiedExtent(v, u, ap[j].off, Stack(c)[j]);
    }
    assert Extents(v, ap1) == Stack(c);
    FreeMultiple(f);
    StackTiles(c, nFree);
    assert [Blk(SQLITE_USABLE_SIZE - nFree, nFree)][1..] == [];
    forall j | 0 <= j < |ap| ensures CellContents(v, ap1)[j] == CellContents(u, ap)[j] {
      assert CopiedAt(v, c, CellContents(u, ap), j);
    }
  }

  lemma {:induction false} FreeMultiple(f: seq<Blk>)
    requires AllAligned(f)
    ensures TotalSize(f) % 4 == 0
    decreases |f|
  {
    if f != [] {
      assert Aligned(f[0]);
      assert forall i | 0 <= i < |f[1..]| :: f[1..][i] == f[i + 1];
      FreeMultiple(f[1..]);
    }
  }

  /** n words from one buffer to another. */
  method CopyWords(src: array<Word>, from: nat, dst: array<Word>, to: nat, n: nat)
    requires src != dst && from + n <= src.Length && to + n <= dst.Length
    modifies dst
    ensures dst[..] == old(dst[..to]) + src[from..from + n] + old(dst[to + n..])
  {
    var j := 0;
    while j < n
      invariant 0 <= j <= n
      invariant dst[..] == old(dst[..to]) + src[from..from + j] + old(dst[to + j..])
    {
      ghost var before := dst[..];
      dst[to + j] := src[from + j];
      assert src[from..from + j + 1] == src[from..from + j] + [src[from + j]];
      assert dst[..] == before[to + j := src[from + j]];
      j := j + 1;
    }
  }

  /** The copy of a cell with its link changed has the cell's content. */
  lemma CellCopied(u0: seq<Word>, u1: seq<Word>, np: seq<Word>, np1: seq<Word>, b: Blk, t: Blk, x: Word)
    requires |u0| == WORDS && |u1| == WORDS && |np| == WORDS && Aligned(b) && Aligned(t) && t.size == b.size && b.size >= CELL_HDR
    requires forall w | b.start / 2 <= w < (b.start + b.size) / 2 :: u1[w] == if w == b.start / 2 + INEXT then x else u0[w]
    requires np1 == np[..t.start / 2] + u1[b.start / 2..b.start / 2 + b.size / 2] + np[t.start / 2 + b.size / 2..]
    ensures |np1| == WORDS && Content(np1, t) == Content(u0, b) && OnlyIn(np, np1, t)
  {
    Halves(b);
    Halves(t);
    assert Chunk(np1, t) == Chunk(u1, b);
    assert Masked(Chunk(u1, b)) == Masked(Chunk(u0, b));
  }

  /** Writing one cell's link leaves the cells after it alone. */
  lemma LinkWritten(u0: seq<Word>, u: seq<Word>, c: seq<Blk>, i: nat, x: Word)
    requires |u0| == WORDS && |u| == WORDS && AllAligned(c) && Apart(c) && i < |c| && c[i].size >= CELL_HDR
    requires forall j | i <= j < |c| :: SameWords(u0, u, c[j])
    ensures c[i].start / 2 + INEXT < WORDS && forall j | i < j < |c| :: SameWords(u0, u[c[i].start / 2 + INEXT := x], c[j])
  {
    assert Aligned(c[i]);
    Halves(c[i]);
    forall j | i < j < |c| ensures SameWords(u0, u[c[i].start / 2 + INEXT := x], c[j]) {
      assert Aligned(c[j]) && Disjoint(c[i], c[j]);
      Halves(c[j]);
    }
  }

  /** The last cell's link, if there is a cell. */
  ghost function LastLink(c: seq<Blk>): int {
    if |c| > 0 then Pos(c, |c| - 1) / 2 + INEXT else 0
  }

  /** Copied back, with the last link cleared, the cells are still what they were. */
  lemma CopiedBack(np: seq<Word>, v: seq<Word>, c: seq<Blk>, s: seq<seq<Word>>, pc: int)
    requires Copied(np, c, s, |c|) && pc == Pos(c, |c|) <= SQLITE_USABLE_SIZE && |v| == WORDS
    requires forall w | PAGE_HDR / 2 <= w < pc / 2 && w != LastLink(c) :: v[w] == np[w]
    requires |c| > 0 && 0 <= LastLink(c) < pc / 2 ==> v[LastLink(c)] == 0
    requires forall j | 0 <= j < |c| :: c[j].size >= CELL_HDR
    ensures Copied(v, c, s, |c|)
  {
    forall j | 0 <= j < |c| ensures CopiedAt(v, c, s, j) {
      assert CopiedAt(np, c, s, j);
      CopiedCellBack(np, v, c, j, pc);
    }
  }

  lemma CopiedCellBack(np: seq<Word>, v: seq<Word>, c: seq<Blk>, j: nat, pc: int)
    requires |np| == WORDS && |v| == WORDS && AllAligned(c) && j < |c| && pc == Pos(c, |c|) <= SQLITE_USABLE_SIZE
    requires forall w | PAGE_HDR / 2 <= w < pc / 2 && w != LastLink(c) :: v[w] == np[w]
    requires 0 <= LastLink(c) < pc / 2 ==> v[LastLink(c)] == 0
    requires forall i | 0 <= i < |c| :: c[i].size >= CELL_HDR
    requires Aligned(Stack(c)[j])
    ensures Content(v, Stack(c)[j]) == Content(np, Stack(c)[j])
  {
    var t := Stack(c)[j];
    Halves(t);
    PosNext(c, j);
    PosRises(c, j + 1, |c|);
    var x, y, lo := Chunk(np, t), Chunk(v, t), t.start / 2;
    if j < |c| - 1 {
      PosRises(c, j + 1, |c| - 1);
      forall w | 0 <= w < |x| ensures y[w] == x[w] { assert v[lo + w] == np[lo + w]; }
    } else {
      forall w | 0 <= w < |x| && w != INEXT ensures y[w] == x[w] { assert v[lo + w] == np[lo + w]; }
      assert Masked(x) == Masked(y);
    }
  }

  lemma LastFits(c: seq<Blk>)
    requires |c| > 0 && AllAligned(c) && c[|c| - 1].size >= CELL_HDR
    ensures PAGE_HDR / 2 <= Pos(c, |c| - 1) / 2 && LastLink(c) < Pos(c, |c|) / 2
  {
    PosNext(c, |c| - 1);
    PosRises(c, |c| - 1, |c|);
    assert Aligned(c[|c| - 1]);
  }

  lemma CellsBigEnough(u: seq<Word>, ap: seq<CellPtr>)
    requires |u| == WORDS && AllOnPage(ap)
    ensures forall j | 0 <= j < |ap| :: Extents(u, ap)[j].size >= CELL_HDR
  {}

  /** Where cell i's words are and go. */
  lemma CellSpot(c: seq<Blk>, i: nat)
    requires i < |c| && AllAligned(c) && TotalSize(c) <= USABLE_SPACE
    ensures Aligned(c[i]) && Aligned(Stack(c)[i]) && c[i].start / 2 + c[i].size / 2 <= WORDS
    ensures 0 <= Pos(c, i) / 2 && Pos(c, i) / 2 + c[i].size / 2 <= WORDS && 0 <= Pos(c, i) + c[i].size <= SQLITE_USABLE_SIZE
  {
    assert Aligned(c[i]);
    Halves(c[i]);
    StackPlace(c, i, Stack(c)[i]);
  }

  lemma StackPlace(c: seq<Blk>, i: nat, b: Blk)
    requires AllAligned(c) && TotalSize(c) <= USABLE_SPACE && i < |c| && b == Stack(c)[i]
    ensures Aligned(b) && 0 <= Pos(c, i) / 2 && Pos(c, i) / 2 + c[i].size / 2 <= WORDS
    ensures 0 <= Pos(c, i) + c[i].size <= SQLITE_USABLE_SIZE
  {
    StackFits(c, i);
    Halves(b);
  }

  lemma SizeAsRead(u0: seq<Word>, u: seq<Word>, b: Blk)
    requires |u0| == WORDS && |u| == WORDS && CellPlace(b.start) && b == Extent(u0, b.start) && Aligned(b)
    requires SameWords(u0, u, b)
    ensures b.start / 2 + 6 <= WORDS && SizeOf(u[b.start / 2..b.start / 2 + 6]) == b.size >= CELL_HDR
  {
    SameCell(u0, u, b.start);
  }

  /** What moving cell i did. */
  lemma CellMoved(u0: seq<Word>, u: seq<Word>, u1: seq<Word>, np: seq<Word>, np1: seq<Word>, c: seq<Blk>, s: seq<seq<Word>>, i: nat, x: Word)
    requires |u0| == WORDS && |u| == WORDS && i < |c| && c[i].size >= CELL_HDR && |s| == |c| && AllAligned(c) && Apart(c)
    requires Copied(np, c, s, i) && Aligned(Stack(c)[i]) && s[i] == Content(u0, c[i])
    requires forall j | i <= j < |c| :: SameWords(u0, u, c[j])
    requires c[i].start / 2 + INEXT < WORDS && u1 == u[c[i].start / 2 + INEXT := x]
    requires c[i].start / 2 + c[i].size / 2 <= WORDS && 0 <= Pos(c, i) / 2 && Pos(c, i) / 2 + c[i].size / 2 <= WORDS
    requires np1 == np[..Pos(c, i) / 2] + u1[c[i].start / 2..c[i].start / 2 + c[i].size / 2] + np[Pos(c, i) / 2 + c[i].size / 2..]
    ensures Copied(np1, c, s, i + 1) && forall j | i < j < |c| :: SameWords(u0, u1, c[j])
  {
    LinkWritten(u0, u, c, i, x);
    CellCopied(u0, u1, np, np1, c[i], Stack(c)[i], x);
    CopyStep(np, np1, c, s, i);
  }

  /** The cells of a page: where they are, and what is in them. */
  ghost predicate CellsAre(u0: seq<Word>, ap: seq<CellPtr>, c: seq<Blk>, s: seq<seq<Word>>) {
    && |u0| == WORDS && |c| == |ap| == |s| && AllAligned(c) && Apart(c) && TotalSize(c) <= USABLE_SPACE
    && forall i | 0 <= i < |c| :: CellIs(u0, ap, c, s, i)
  }

  ghost predicate CellIs(u0: seq<Word>, ap: seq<CellPtr>, c: seq<Blk>, s: seq<seq<Word>>, i: nat)
    requires |u0| == WORDS && i < |c| == |ap| == |s| && AllAligned(c)
  {
    ap[i] == OnPage(c[i].start) && CellPlace(c[i].start) && c[i] == Extent(u0, c[i].start) && s[i] == Content(u0, c[i])
  }

  /** Writing the header touches no cell. */
  lemma HeaderWritten(u0: seq<Word>, u: seq<Word>, c: seq<Blk>, s: seq<seq<Word>>, np: seq<Word>)
    requires |u0| == WORDS && |np| == WORDS && u == u0[FIRST_CELL := PAGE_HDR] && |s| == |c|
    requires AllAligned(c) && TotalSize(c) <= USABLE_SPACE
    ensures forall j | 0 <= j < |c| :: SameWords(u0, u, c[j])
    ensures Copied(np, c, s, 0)
  {
    forall j | 0 <= j < |c| ensures SameWords(u0, u, c[j]) {
      assert Aligned(c[j]);
      Halves(c[j]);
    }
  }

  /** The stacked cells leave exactly the free space behind them. */
  ghost predicate EndsAt(c: seq<Blk>, nFree: int) {
    && Pos(c, |c|) == SQLITE_USABLE_SIZE - nFree && PAGE_HDR <= SQLITE_USABLE_SIZE - nFree && nFree % 4 == 0 && nFree > 0
    && (|c| > 0 ==> PAGE_HDR / 2 <= LastLink(c) < (SQLITE_USABLE_SIZE - nFree) / 2)
  }

  /** Where the stacked cells end, and the last one's link. */
  lemma StackPlaces(u0: seq<Word>, ap0: seq<CellPtr>, f0: seq<Blk>, nFree: int, c: seq<Blk>, s: seq<seq<Word>>)
    requires PageHolds(u0, ap0, f0, nFree, s) && nFree > 0 && c == Extents(u0, ap0)
    ensures CellsAre(u0, ap0, c, s) && EndsAt(c, nFree)
  {
    PosRises(c, |c|, |c|);
    assert c[..|c|] == c && c[|c|..] == [];
    SumNonneg(f0);
    SumNonneg(c);
    FreeMultiple(f0);
    CellsBigEnough(u0, ap0);
    if |ap0| > 0 { LastFits(c); }
    forall i | 0 <= i < |c| ensures CellIs(u0, ap0, c, s, i) {}
  }

  lemma CellsFound(u0: seq<Word>, ap0: seq<CellPtr>, f0: seq<Blk>, nFree: int, s: seq<seq<Word>>) returns (c: seq<Blk>)
    requires PageHolds(u0, ap0, f0, nFree, s) && nFree > 0
    ensures |u0| == WORDS && AllOnPage(ap0) && c == Extents(u0, ap0) && CellsAre(u0, ap0, c, s) && EndsAt(c, nFree)
  {
    c := Extents(u0, ap0);
    StackPlaces(u0, ap0, f0, nFree, c, s);
  }

  /** What writing back leaves: the copied words but for the last link, and one free block. */
  ghost predicate Restacked(np: seq<Word>, v: seq<Word>, c: seq<Blk>, ap1: seq<CellPtr>, nFree: int) {
    var pc := SQLITE_USABLE_SIZE - nFree;
    && |v| == WORDS == |np| && PlacedAt(ap1, c) && 0 <= pc && pc / 2 + 1 < WORDS
    && (forall w | PAGE_HDR / 2 <= w < pc / 2 && w != LastLink(c) :: v[w] == np[w])
    && (|c| > 0 && 0 <= LastLink(c) < WORDS ==> v[LastLink(c)] == 0)
    && v[FIRST_FREE] == pc && v[pc / 2] == nFree && v[pc / 2 + 1] == 0
  }

  lemma Finished(u0: seq<Word>, ap0: seq<CellPtr>, f0: seq<Blk>, nFree: int, c: seq<Blk>, s: seq<seq<Word>>,
                 np: seq<Word>, v: seq<Word>, ap1: seq<CellPtr>)
    requires PageHolds(u0, ap0, f0, nFree, s) && nFree > 0 && c == Extents(u0, ap0)
    requires EndsAt(c, nFree) && Copied(np, c, s, |c|) && Restacked(np, v, c, ap1, nFree)
    ensures PageHolds(v, ap1, [Blk(SQLITE_USABLE_SIZE - nFree, nFree)], nFree, s)
  {
    CellsBigEnough(u0, ap0);
    CopiedBack(np, v, c, s, SQLITE_USABLE_SIZE - nFree);
    assert BlockAt(v, [Blk(SQLITE_USABLE_SIZE - nFree, nFree)], 0);
    StackOk(u0, ap0, f0, nFree, v, ap1);
  }

  /** The cells' new places. */
  ghost predicate PlacedAt(ap: seq<CellPtr>, c: seq<Blk>) {
    |ap| == |c| && forall j | 0 <= j < |c| :: ap[j] == OnPage(Pos(c, j))
  }

  /** Free space there is means a first free block. */
  lemma SomeFree(u: seq<Word>, ap: seq<CellPtr>, f: seq<Blk>, nFree: int)
    requires PageOk(u, ap, f, nFree) && nFree > 0
    ensures |f| > 0 && BlockFacts(u, f, 0)
  {
    BlockIs(u, f, 0);
  }

  /** The words that taking from a block writes are on the page. */
  lemma TakenRoom(u: seq<Word>, f: seq<Blk>, k: nat, n: int)
    requires BlockFacts(u, f, k) && AllAligned(f) && 0 < n <= f[k].size && n % 4 == 0
    ensures n < f[k].size ==> 0 <= (f[k].start + n) / 2 && (f[k].start + n) / 2 + 1 < WORDS && f[k].start + n < 65536
    ensures f[k].size < 65536 && 0 <= StartOf(f, k + 1) < 65536
  {
    assert Aligned(f[k]);
  }

  /** Free block k, as the walk along the chain sees it. */
  ghost predicate BlockFacts(u: seq<Word>, f: seq<Blk>, k: nat) {
    && |u| == WORDS && k < |f| && 0 <= LinkWord(f, k) < WORDS && u[LinkWord(f, k)] == f[k].start && 8 <= f[k].start && f[k].start / 2 + 1 < WORDS
    && u[f[k].start / 2] == f[k].size && u[f[k].start / 2 + 1] == StartOf(f, k + 1)
    && (u[f[k].start / 2 + 1] == 0 <==> k + 1 == |f|)
  }

  lemma BlockIs(u: seq<Word>, f: seq<Blk>, k: nat)
    requires FreeList(u, f) && AllAligned(f) && k < |f|
    ensures BlockFacts(u, f, k)
  {
    LinkHolds(u, f, k);
    assert BlockAt(u, f, k) && Aligned(f[k]);
    if k + 1 < |f| { assert Aligned(f[k + 1]); }
    Halves(f[k]);
  }

  /** The walk along the free list stands before block k, behind all blocks before the freed stretch. */
  ghost predicate Walked(u: seq<Word>, f: seq<Blk>, pIdx: int, idx: int, k: nat, b: Blk) {
    && |u| == WORDS && k <= |f| && pIdx == LinkWord(f, k) && 0 <= pIdx < WORDS && u[pIdx] == idx == StartOf(f, k)
    && (forall j | 0 <= j < k :: f[j].start < b.start) && !JoinsBefore(f, k, b)
  }

  /** The place found: before block k, or behind it if it ends where the stretch begins. */
  lemma PlaceFound(u: seq<Word>, f: seq<Blk>, c: seq<Blk>, i: nat, pIdx: int, idx: int, k: nat)
    requires Tiled(f, c) && i < |c| && FreeList(u, f) && Walked(u, f, pIdx, idx, k, c[i])
    ensures idx == 0 || c[i].start <= idx ==> Place(f, k, c[i]) && (JoinsAfter(f, k, c[i]) <==> idx == c[i].start + c[i].size)
    ensures idx != 0 && idx < c[i].start ==> BlockFacts(u, f, k)
    ensures idx != 0 && idx < c[i].start && JoinsBefore(f, k + 1, c[i]) ==> Place(f, k + 1, c[i])
  {
    assert Aligned(c[i]);
    if k < |f| { assert Aligned(f[k]); BlockIs(u, f, k); }
    if idx == 0 || c[i].start <= idx {
      PlaceExists(f, c, i, k);
    } else if JoinsBefore(f, k + 1, c[i]) {
      if k + 1 < |f| { assert f[k].start + f[k].size < f[k + 1].start; }
      PlaceExists(f, c, i, k + 1);
    }
  }

  lemma WalkOn(u: seq<Word>, f: seq<Blk>, c: seq<Blk>, i: nat, pIdx: int, idx: int, k: nat)
    requires Tiled(f, c) && i < |c| && FreeList(u, f) && Walked(u, f, pIdx, idx, k, c[i]) && BlockFacts(u, f, k)
    requires idx != 0 && idx < c[i].start && idx + u[idx / 2] != c[i].start
    ensures idx / 2 + 1 < WORDS
    ensures var next := u[idx / 2 + 1]; Walked(u, f, idx / 2 + 1, next, k + 1, c[i]) && (next != 0 && next < c[i].start ==> BlockFacts(u, f, k + 1))
  {
    PlaceFound(u, f, c, i, idx / 2 + 1, u[idx / 2 + 1], k + 1);
  }

  /** What joining with the block before, and maybe the block behind, writes. */
  lemma JoinWords(u: seq<Word>, f: seq<Blk>, k: nat, b: Blk)
    requires FreeList(u, f) && AllAligned(f) && k < |f| && Aligned(b) && Place(f, k + 1, b) && JoinsBefore(f, k + 1, b)
    ensures var w := f[k].start / 2; var next := if JoinsAfter(f, k + 1, b) then f[k + 1].size else 0;
      && w + 1 < WORDS && 0 <= f[k].size + b.size + next < 65536
      && FreedWords(u, f, k + 1, b) == u[w := f[k].size + b.size + next][w + 1 := StartOf(f, Hi(f, k + 1, b))]
  {
    assert Aligned(f[k]);
    Halves(f[k]);
    FreedAligned(f, k + 1, b);
    FreedAt(f, k + 1, b, k);
    assert Aligned(Freed(f, k + 1, b)[k]);
    if Hi(f, k + 1, b) < |f| { assert Aligned(f[Hi(f, k + 1, b)]); }
  }

  lemma NewWords(u: seq<Word>, f: seq<Blk>, k: nat, b: Blk)
    requires FreeList(u, f) && AllAligned(f) && k <= |f| && Aligned(b) && Place(f, k, b) && !JoinsBefore(f, k, b)
    ensures var w := b.start / 2; var next := if JoinsAfter(f, k, b) then f[k].size else 0;
      && w + 1 < WORDS && 0 <= b.size + next < 65536
      && FreedWords(u, f, k, b) == u[w := b.size + next][w + 1 := StartOf(f, Hi(f, k, b))][LinkWord(f, k) := b.start]
  {
    LinkHolds(u, f, k);
    FreedAligned(f, k, b);
    FreedAt(f, k, b, k);
    assert Aligned(Freed(f, k, b)[k]);
    if Hi(f, k, b) < |f| { assert Aligned(f[Hi(f, k, b)]); }
    Halves(b);
  }

  lemma ContentLength(u: seq<Word>, ap: seq<CellPtr>, f: seq<Blk>, nFree: int, i: nat)
    requires PageOk(u, ap, f, nFree) && i < |ap|
    ensures 2 * |CellContents(u, ap)[i]| == Extents(u, ap)[i].size
  {
    assert Aligned(Extents(u, ap)[i]);
    Halves(Extents(u, ap)[i]);
  }

  /** A page in memory: its words and what is known of them. */
  class MemPage {
    const aDisk: array<Word>
    var isOverfull: bool
    var nFree: int
    var apCell: seq<CellPtr>
    ghost var free: seq<Blk>

    ghost predicate Valid()
      reads this, aDisk
    {
      aDisk.Length == WORDS && !isOverfull && PageOk(aDisk[..], apCell, free, nFree)
    }

    /** The cells, links apart. */
    ghost function Cells(): seq<seq<Word>>
      requires Valid()
      reads this, aDisk
    {
      CellContents(aDisk[..], apCell)
    }

    /** zeroPage: no cells, and all space behind the header free. */
    constructor ()
      ensures Valid() && fresh(aDisk) && Cells() == [] && nFree == USABLE_SPACE
    {
      aDisk := new Word[WORDS](_ => 0);
      isOverfull, nFree, apCell := false, USABLE_SPACE, [];
      free := [Blk(PAGE_HDR, USABLE_SPACE)];
      new;
      aDisk[FIRST_FREE] := PAGE_HDR;
      aDisk[PAGE_HDR / 2] := USABLE_SPACE;
      aDisk[PAGE_HDR / 2 + 1] := 0;
      assert BlockAt(aDisk[..], free, 0);
      TiledStacked([], USABLE_SPACE);
      assert TotalSize(free) == USABLE_SPACE by { assert free[1..] == []; }
      assert Extents(aDisk[..], apCell) == [];
    }

    /** The size of the cell at off, whose words are as in u0. */
    method SizeAt(off: int, ghost u0: seq<Word>, ghost b: Blk) returns (n: int)
      requires aDisk.Length == WORDS && |u0| == WORDS && off == b.start && CellPlace(off) && b == Extent(u0, off) && Aligned(b)
      requires SameWords(u0, aDisk[..], b)
      ensures n == b.size >= CELL_HDR
    {
      SizeAsRead(u0, aDisk[..], b);
      assert aDisk[off / 2..off / 2 + 6] == aDisk[..][off / 2..off / 2 + 6];
      n := SizeOf(aDisk[off / 2..off / 2 + 6]);
    }

    /** One cell of defragmentation: its link is set, and it is copied behind those before it. */
    method MoveCell(i: nat, pc: int, newPage: array<Word>, ghost u0: seq<Word>, ghost c: seq<Blk>, ghost s: seq<seq<Word>>)
      returns (n: int)
      requires aDisk.Length == WORDS && newPage.Length == WORDS && newPage != aDisk && |u0| == WORDS
      requires i < |c| == |apCell| && apCell[i] == OnPage(c[i].start) && CellPlace(c[i].start) && c[i] == Extent(u0, c[i].start)
      requires AllAligned(c) && Apart(c) && TotalSize(c) <= USABLE_SPACE && pc == Pos(c, i) && |s| == |c| && s[i] == Content(u0, c[i])
      requires forall j | i <= j < |c| :: SameWords(u0, aDisk[..], c[j])
      requires Copied(newPage[..], c, s, i)
      modifies this`apCell, aDisk, newPage
      ensures n == c[i].size && apCell == old(apCell)[i := OnPage(pc)]
      ensures forall j | i < j < |c| :: SameWords(u0, aDisk[..], c[j])
      ensures Copied(newPage[..], c, s, i + 1)
    {
      var off := apCell[i].off;
      ghost var np, u := newPage[..], aDisk[..];
      CellSpot(c, i);
      n := SizeAt(off, u0, c[i]);
      aDisk[off / 2 + INEXT] := pc + n;
      ghost var u1 := aDisk[..];
      CopyWords(aDisk, off / 2, newPage, pc / 2, n / 2);
      CellMoved(u0, u, u1, np, newPage[..], c, s, i, pc + n);
      apCell := apCell[i := OnPage(pc)];
    }

    /** All cells are stacked behind the header in their order, and all free space is one block behind them. */
    method DefragmentPage()
      requires Valid() && nFree > 0
      modifies this`apCell, this`free, aDisk
      ensures Valid() && Cells() == old(Cells()) && free == [Blk(SQLITE_USABLE_SIZE - nFree, nFree)]
    {
      Defragment(free, Cells());
      free := [Blk(SQLITE_USABLE_SIZE - nFree, nFree)];
    }

    method Defragment(ghost f: seq<Blk>, ghost s: seq<seq<Word>>)
      requires aDisk.Length == WORDS && PageHolds(aDisk[..], apCell, f, nFree, s) && nFree > 0
      modifies this`apCell, aDisk
      ensures PageHolds(aDisk[..], apCell, [Blk(SQLITE_USABLE_SIZE - nFree, nFree)], nFree, s)
    {
      ghost var u0, ap0 := aDisk[..], apCell;
      ghost var c := CellsFound(u0, ap0, f, nFree, s);
      ghost var np, v := Restack(u0, ap0, c, s);
      Finished(u0, ap0, f, nFree, c, s, np, v, apCell);
    }

    /** A new page is filled from the old one, and then replaces it. */
    method Restack(ghost u0: seq<Word>, ghost ap0: seq<CellPtr>, ghost c: seq<Blk>, ghost s: seq<seq<Word>>)
      returns (ghost np: seq<Word>, ghost v: seq<Word>)
      requires aDisk.Length == WORDS && aDisk[..] == u0 && apCell == ap0 && CellsAre(u0, ap0, c, s) && EndsAt(c, nFree)
      modifies this`apCell, aDisk
      ensures v == aDisk[..] && Copied(np, c, s, |c|) && Restacked(np, v, c, apCell, nFree)
    {
      var newPage := new Word[WORDS](_ => 0);
      aDisk[FIRST_CELL] := PAGE_HDR;
      CopyWords(aDisk, 0, newPage, 0, PAGE_HDR / 2);
      HeaderWritten(u0, aDisk[..], c, s, newPage[..]);
      var pc := MoveCells(newPage, u0, ap0, c, s);
      np := newPage[..];
      var last := if |apCell| > 0 then apCell[|apCell| - 1].off / 2 + INEXT else 0;
      WriteBack(pc, last, newPage);
      v := aDisk[..];
    }

    /** Every cell in turn. */
    method MoveCells(newPage: array<Word>, ghost u0: seq<Word>, ghost ap0: seq<CellPtr>, ghost c: seq<Blk>, ghost s: seq<seq<Word>>)
      returns (pc: int)
      requires aDisk.Length == WORDS && newPage.Length == WORDS && newPage != aDisk && apCell == ap0 && CellsAre(u0, ap0, c, s)
      requires forall j | 0 <= j < |c| :: SameWords(u0, aDisk[..], c[j])
      requires Copied(newPage[..], c, s, 0)
      modifies this`apCell, aDisk, newPage
      ensures PlacedAt(apCell, c) && pc == Pos(c, |c|) && Copied(newPage[..], c, s, |c|)
    {
      pc := PAGE_HDR;
      assert c[..0] == [];
      var i := 0;
      while i < |apCell|
        invariant 0 <= i <= |apCell| == |c| && pc == Pos(c, i)
        invariant forall j | 0 <= j < i :: apCell[j] == OnPage(Pos(c, j))
        invariant forall j | i <= j < |c| :: apCell[j] == ap0[j]
        invariant forall j | i <= j < |c| :: SameWords(u0, aDisk[..], c[j])
        invariant Copied(newPage[..], c, s, i)
      {
        assert CellIs(u0, ap0, c, s, i);
        var n := MoveCell(i, pc, newPage, u0, c, s);
        PosNext(c, i);
        pc := pc + n;
        i := i + 1;
      }
    }

    /** The new page's words, the last link cleared, and the free block's header. */
    method WriteBack(pc: int, last: int, newPage: array<Word>)
      requires aDisk.Length == WORDS && newPage.Length == WORDS && newPage != aDisk
      requires PAGE_HDR <= pc && pc % 4 == 0 && pc < SQLITE_USABLE_SIZE && (last == 0 || PAGE_HDR / 2 <= last < pc / 2)
      modifies aDisk
      ensures forall w | PAGE_HDR / 2 <= w < pc / 2 && w != last :: aDisk[..][w] == newPage[..][w]
      ensures last > 0 ==> aDisk[..][last] == 0
      ensures aDisk[..][FIRST_FREE] == pc && aDisk[..][pc / 2] == SQLITE_USABLE_SIZE - pc && aDisk[..][pc / 2 + 1] == 0
    {
      CopyWords(newPage, 0, aDisk, 0, pc / 2);
      assert forall w | 0 <= w < pc / 2 :: aDisk[w] == aDisk[..][w] == newPage[w];
      if last > 0 {
        aDisk[last] := 0;
      }
      aDisk[pc / 2], aDisk[pc / 2 + 1] := SQLITE_USABLE_SIZE - pc, 0;
      aDisk[FIRST_FREE] := pc;
      forall w | pc / 2 + 2 <= w < WORDS { aDisk[w] := 0; }
    }

    /** First fit along the free list; at its end the page is defragmented, and then the first block fits. */
    method FindSpace(nByte: int) returns (pIdx: nat, p: nat, ghost k: nat)
      requires Valid() && 0 < nByte <= nFree
      modifies this`apCell, this`free, aDisk
      ensures Valid() && Cells() == old(Cells()) && |apCell| == |old(apCell)|
      ensures BlockFacts(aDisk[..], free, k) && pIdx == LinkWord(free, k) && p == free[k].start && nByte <= free[k].size
    {
      k := 0;
      SomeFree(aDisk[..], apCell, free, nFree);
      pIdx := FIRST_FREE;
      p := aDisk[pIdx];
      while aDisk[p / 2] < nByte
        invariant Valid() && Cells() == old(Cells()) && |apCell| == |old(apCell)| && nFree == old(nFree)
        invariant BlockFacts(aDisk[..], free, k) && pIdx == LinkWord(free, k) && p == free[k].start
        decreases !(|free| == 1 && free[0].size == nFree), |free| - k
      {
        pIdx, p, k := NextBlock(p, k);
      }
    }

    /** The next free block; behind the last one, the page's only block after defragmentation. */
    method NextBlock(p0: nat, ghost k0: nat) returns (pIdx: nat, p: nat, ghost k: nat)
      requires Valid() && nFree > 0 && BlockFacts(aDisk[..], free, k0) && p0 == free[k0].start
      modifies this`apCell, this`free, aDisk
      ensures Valid() && Cells() == old(Cells()) && |apCell| == |old(apCell)|
      ensures BlockFacts(aDisk[..], free, k) && pIdx == LinkWord(free, k) && p == free[k].start
      ensures (free == old(free) && k == k0 + 1) || (|free| == 1 && free[0].size == nFree && k == 0)
    {
      if aDisk[p0 / 2 + 1] == 0 {
        DefragmentPage();
        pIdx, k := FIRST_FREE, 0;
      } else {
        pIdx, k := p0 / 2 + 1, k0 + 1;
      }
      BlockIs(aDisk[..], free, k);
      p := aDisk[pIdx];
    }

    /** nByte bytes from the front of the block at p. */
    method TakeSpace(pIdx: nat, p: nat, nByte: int, ghost k: nat, ghost i: nat) returns (start: int)
      requires Valid() && 0 < nByte && nByte % 4 == 0 && i <= |apCell|
      requires BlockFacts(aDisk[..], free, k) && pIdx == LinkWord(free, k) && p == free[k].start && nByte <= free[k].size
      modifies this`nFree, this`free, aDisk
      ensures Reserved(aDisk[..], apCell, free, nFree, Blk(start, nByte), i) && nFree == old(nFree) - nByte && start > 0
      ensures CellContents(aDisk[..], apCell) == old(Cells())
    {
      ghost var u, f := aDisk[..], free;
      TakenOk(u, apCell, f, nFree, k, nByte, i);
      start := WriteTaken(pIdx, p, nByte, f, k);
      nFree := nFree - nByte;
      free := Taken(f, k, nByte);
    }

    /** The block is unlinked, or its rest gets a header and is linked in its place. */
    method WriteTaken(pIdx: nat, p: nat, nByte: int, ghost f: seq<Blk>, ghost k: nat) returns (start: int)
      requires aDisk.Length == WORDS && AllAligned(f) && 0 < nByte && nByte % 4 == 0
      requires BlockFacts(aDisk[..], f, k) && pIdx == LinkWord(f, k) && p == f[k].start && nByte <= f[k].size
      modifies aDisk
      ensures aDisk[..] == TakenWords(old(aDisk[..]), f, k, nByte) && start == f[k].start
    {
      TakenRoom(aDisk[..], f, k, nByte);
      var iSize, iNext := aDisk[p / 2], aDisk[p / 2 + 1];
      start := aDisk[pIdx];
      if iSize == nByte {
        aDisk[pIdx] := iNext;
      } else {
        var pNew := (start + nByte) / 2;
        aDisk[pNew + 1] := iNext;
        aDisk[pNew] := iSize - nByte;
        aDisk[pIdx] := start + nByte;
      }
    }

    /** nByte bytes of space, or 0 if the page has not that much left or is overfull already. */
    method AllocateSpace(nByte: int, ghost i: nat) returns (start: int)
      requires aDisk.Length == WORDS && (isOverfull || Valid()) && 0 < nByte && nByte % 4 == 0 && i <= |apCell|
      modifies this`apCell, this`nFree, this`free, aDisk
      ensures 0 <= start && (start == 0 <==> old(nFree) < nByte || isOverfull)
      ensures start == 0 ==> aDisk[..] == old(aDisk[..]) && apCell == old(apCell) && nFree == old(nFree) && free == old(free)
      ensures start != 0 ==>
        && Reserved(aDisk[..], apCell, free, nFree, Blk(start, nByte), i) && |apCell| == |old(apCell)|
        && nFree == old(nFree) - nByte && CellContents(aDisk[..], apCell) == old(Cells())
    {
      if nFree < nByte || isOverfull { return 0; }
      var pIdx, p;
      ghost var k;
      pIdx, p, k := FindSpace(nByte);
      start := TakeSpace(pIdx, p, nByte, k, i);
    }

    /** The walk to the place of the stretch. */
    method FindPlace(start: int, ghost f: seq<Blk>, ghost c: seq<Blk>, ghost i: nat) returns (pIdx: nat, idx: nat, ghost k: nat)
      requires aDisk.Length == WORDS && Tiled(f, c) && FreeList(aDisk[..], f) && i < |c| && start == c[i].start
      ensures Walked(aDisk[..], f, pIdx, idx, k, c[i])
      ensures idx == 0 || start <= idx || JoinsBefore(f, k + 1, c[i])
    {
      pIdx, k := FIRST_FREE, 0;
      idx := aDisk[pIdx];
      ghost var u := aDisk[..];
      PlaceFound(u, f, c, i, pIdx, idx, k);
      while idx != 0 && idx < start && idx + aDisk[idx / 2] != start
        invariant Walked(u, f, pIdx, idx, k, c[i]) && (idx != 0 && idx < start ==> BlockFacts(u, f, k))
        decreases |f| - k
      {
        WalkOn(u, f, c, i, pIdx, idx, k);
        pIdx, k := idx / 2 + 1, k + 1;
        idx := aDisk[pIdx];
      }
    }

    /** The stretch is joined to the block that ends where it begins, and to the block that begins where it ends. */
    method JoinBlock(idx: nat, start: int, size: int, ghost f: seq<Blk>, ghost k: nat, ghost b: Blk)
      requires aDisk.Length == WORDS && FreeList(aDisk[..], f) && AllAligned(f) && k < |f| && b == Blk(start, size) && Aligned(b)
      requires Place(f, k + 1, b) && JoinsBefore(f, k + 1, b) && idx == f[k].start && BlockFacts(aDisk[..], f, k)
      modifies aDisk
      ensures aDisk[..] == FreedWords(old(aDisk[..]), f, k + 1, b)
    {
      ghost var u := aDisk[..];
      JoinWords(u, f, k, b);
      if k + 1 < |f| { BlockIs(u, f, k + 1); assert Aligned(f[k + 1]) && Aligned(f[k]); }
      var iSize := aDisk[idx / 2];
      var total := iSize + size;
      if idx + iSize + size == aDisk[idx / 2 + 1] {
        var next := (idx + iSize + size) / 2;
        total := total + aDisk[next];
        aDisk[idx / 2 + 1] := aDisk[next + 1];
      }
      aDisk[idx / 2] := total;
    }

    /** The stretch becomes a block of its own, together with the block that begins where it ends. */
    method NewBlock(pIdx: nat, idx: nat, start: int, size: int, ghost f: seq<Blk>, ghost k: nat, ghost b: Blk)
      requires aDisk.Length == WORDS && FreeList(aDisk[..], f) && AllAligned(f) && k <= |f| && b == Blk(start, size) && Aligned(b)
      requires Place(f, k, b) && !JoinsBefore(f, k, b) && pIdx == LinkWord(f, k) && pIdx < WORDS && idx == StartOf(f, k)
      modifies aDisk
      ensures aDisk[..] == FreedWords(old(aDisk[..]), f, k, b)
    {
      ghost var u := aDisk[..];
      NewWords(u, f, k, b);
      if k < |f| { BlockIs(u, f, k); assert Aligned(f[k]); }
      var pNew := start / 2;
      if idx != start + size {
        aDisk[pNew] := size;
        aDisk[pNew + 1] := idx;
      } else {
        var next, total := aDisk[idx / 2 + 1], size + aDisk[idx / 2];
        aDisk[pNew] := total;
        aDisk[pNew + 1] := next;
      }
      aDisk[pIdx] := start;
    }

    /** A cell's space goes back to the free list, which stays ascending and never has adjacent blocks. */
    method FreeSpace(start: int, size: int, ghost f: seq<Blk>, ghost c: seq<Blk>, ghost i: nat) returns (ghost p: nat)
      requires aDisk.Length == WORDS && Tiled(f, c) && FreeList(aDisk[..], f) && i < |c| && c[i] == Blk(start, size)
      modifies this`nFree, aDisk
      ensures Place(f, p, c[i]) && aDisk[..] == FreedWords(old(aDisk[..]), f, p, c[i]) && nFree == old(nFree) + size
    {
      var pIdx, idx;
      ghost var k;
      assert Aligned(c[i]);
      pIdx, idx, k := FindPlace(start, f, c, i);
      PlaceFound(aDisk[..], f, c, i, pIdx, idx, k);
      if idx != 0 && idx < start {
        p := k + 1;
        JoinBlock(idx, start, size, f, k, c[i]);
      } else {
        p := k;
        NewBlock(pIdx, idx, start, size, f, k, c[i]);
      }
      nFree := nFree + size;
    }

    /** Cell i leaves the page; the other cells and their order stay, and its bytes are free. */
    method DropCell(i: nat)
      requires Valid() && i < |apCell|
      modifies this`apCell, this`nFree, this`free, aDisk
      ensures Valid() && Cells() == old(Cells()[..i] + Cells()[i + 1..])
      ensures nFree == old(nFree) + 2 * |old(Cells()[i])|
    {
      ghost var u, f, n, c := aDisk[..], free, nFree, Extents(aDisk[..], apCell);
      ContentLength(u, apCell, f, nFree, i);
      var off, sz := PlaceOfCell(i);
      ghost var p := FreeSpace(off, sz, f, c, i);
      DropPointer(i, u, f, n, p, c[i]);
    }

    method PlaceOfCell(i: nat) returns (off: int, sz: int)
      requires Valid() && i < |apCell|
      ensures Extents(aDisk[..], apCell)[i] == Blk(off, sz)
    {
      off := apCell[i].off;
      assert Extents(aDisk[..], apCell)[i] == Extent(aDisk[..], off);
      assert aDisk[off / 2..off / 2 + 6] == aDisk[..][off / 2..off / 2 + 6];
      sz := SizeOf(aDisk[off / 2..off / 2 + 6]);
    }

    method DropPointer(i: nat, ghost u: seq<Word>, ghost f: seq<Blk>, ghost n: int, ghost p: nat, ghost b: Blk)
      requires PageOk(u, apCell, f, n) && i < |apCell| && b == Extents(u, apCell)[i] && Place(f, p, b)
      requires aDisk.Length == WORDS && !isOverfull && aDisk[..] == FreedWords(u, f, p, b) && nFree == n + b.size
      modifies this`apCell, this`free
      ensures Valid() && Cells() == CellContents(u, old(apCell))[..i] + CellContents(u, old(apCell))[i + 1..]
    {
      ghost var ap := apCell;
      apCell := apCell[..i] + apCell[i + 1..];
      FreedOk(u, aDisk[..], ap, apCell, f, n, i, p, b);
      free := Freed(f, p, b);
    }

    /** A cell goes in at index i if it fits and the page is not overfull; if not it is, and untouched but for the pointer. */
    method InsertCell(i: nat, cell: seq<Word>)
      requires aDisk.Length == WORDS && (isOverfull || Valid()) && i <= |apCell| && |cell| >= 6 && SizeOf(cell) == 2 * |cell|
      modifies this`apCell, this`nFree, this`free, this`isOverfull, aDisk
      ensures isOverfull <==> old(isOverfull) || old(nFree) < 2 * |cell|
      ensures !isOverfull ==> Valid() && nFree == old(nFree) - 2 * |cell|
      ensures !isOverfull ==> Cells() == old(Cells()[..i]) + [Masked(cell)] + old(Cells()[i..])
      ensures isOverfull ==> aDisk[..] == old(aDisk[..]) && nFree == old(nFree)
      ensures isOverfull ==> apCell == old(apCell[..i]) + [OffPage(cell)] + old(apCell[i..])
    {
      ghost var s := if isOverfull then [] else Cells();
      var idx := AllocateSpace(2 * |cell|, i);
      if idx <= 0 {
        isOverfull := true;
        apCell := apCell[..i] + [OffPage(cell)] + apCell[i..];
      } else {
        PutCell(idx, i, cell, s);
      }
    }

    /** The cell's words go into the space set aside for it. */
    method PutCell(idx: int, i: nat, cell: seq<Word>, ghost s: seq<seq<Word>>)
      requires aDisk.Length == WORDS && !isOverfull && |cell| >= 6 && SizeOf(cell) == 2 * |cell| && i <= |apCell|
      requires Reserved(aDisk[..], apCell, free, nFree, Blk(idx, 2 * |cell|), i) && CellContents(aDisk[..], apCell) == s
      modifies this`apCell, aDisk
      ensures Valid() && Cells() == s[..i] + [Masked(cell)] + s[i..]
    {
      ghost var u, b := aDisk[..], Blk(idx, 2 * |cell|);
      ReservedApart(free, Extents(u, apCell), b, i);
      CopyCell(idx, cell);
      Filled(u, aDisk[..], apCell, free, nFree, b, i, cell);
      apCell := apCell[..i] + [OnPage(idx)] + apCell[i..];
    }

    method CopyCell(idx: int, cell: seq<Word>)
      requires aDisk.Length == WORDS && Aligned(Blk(idx, 2 * |cell|))
      modifies aDisk
      ensures OnlyIn(old(aDisk[..]), aDisk[..], Blk(idx, 2 * |cell|)) && Chunk(aDisk[..], Blk(idx, 2 * |cell|)) == cell
    {
      Halves(Blk(idx, 2 * |cell|));
      var j := 0;
      while j < |cell|
        invariant 0 <= j <= |cell|
        invariant forall w | 0 <= w < WORDS && !(idx / 2 <= w < idx / 2 + j) :: aDisk[w] == old(aDisk[..])[w]
        invariant forall m | 0 <= m < j :: aDisk[..][idx / 2 + m] == cell[m]
      {
        ghost var before := aDisk[..];
        aDisk[idx / 2 + j] := cell[j];
        assert aDisk[..] == before[idx / 2 + j := cell[j]];
        j := j + 1;
      }
    }

    // -------------------------------------------------------------- to the file and back

    /** The chain of cells is rebuilt in their order. */
    method RelinkCellList()
      requires Valid()
      modifies aDisk
      ensures Valid() && Cells() == old(Cells()) && Linked(aDisk[..], apCell, |apCell| + 1)
    {
      Relink(Cells());
    }

    method Relink(ghost s: seq<seq<Word>>)
      requires aDisk.Length == WORDS && PageHolds(aDisk[..], apCell, free, nFree, s)
      modifies aDisk
      ensures PageHolds(aDisk[..], apCell, free, nFree, s) && Linked(aDisk[..], apCell, |apCell| + 1)
    {
      var pIdx, i := FIRST_CELL, 0;
      NoneLinked(aDisk[..], apCell, free, nFree);
      while i < |apCell|
        invariant 0 <= i <= |apCell| && pIdx == CellLink(apCell, i)
        invariant PageHolds(aDisk[..], apCell, free, nFree, s) && Linked(aDisk[..], apCell, i)
      {
        var idx := OffsetOf(i);
        WriteLink(pIdx, idx, i, s);
        pIdx := idx / 2 + INEXT;
        i := i + 1;
      }
      WriteLink(pIdx, 0, i, s);
    }

    method OffsetOf(i: nat) returns (idx: int)
      requires i < |apCell| && AllOnPage(apCell)
      ensures idx == OffsetAt(apCell, i) && idx / 2 + INEXT == CellLink(apCell, i + 1)
    {
      idx := apCell[i].off;
    }

    method WriteLink(pIdx: int, idx: int, ghost i: nat, ghost s: seq<seq<Word>>)
      requires aDisk.Length == WORDS && i <= |apCell| && pIdx == CellLink(apCell, i) && idx == OffsetAt(apCell, i)
      requires PageHolds(aDisk[..], apCell, free, nFree, s) && Linked(aDisk[..], apCell, i)
      modifies aDisk
      ensures PageHolds(aDisk[..], apCell, free, nFree, s) && Linked(aDisk[..], apCell, i + 1)
    {
      ghost var u := aDisk[..];
      OffsetIsWord(apCell, i);
      LinkSet(u, apCell, free, nFree, s, i, idx);
      aDisk[pIdx] := idx;
      assert aDisk[..] == u[pIdx := aDisk[pIdx]];
    }

    /** The cells along the chain, and the bytes they leave free; not ok if the chain meets a place where no cell can be. */
    method ReadCells(ghost offs: seq<int>) returns (ok: bool, freeSpace: int)
      requires aDisk.Length == WORDS && Walk(aDisk[..], aDisk[FIRST_CELL], offs)
      modifies this`apCell
      ensures ok <==> Ends(aDisk[..], aDisk[FIRST_CELL], offs)
      ensures ok ==> apCell == Pointers(offs) && freeSpace == USABLE_SPACE - CellSum(aDisk[..], offs)
    {
      ghost var u, n := aDisk[..], 0;
      ReadingStarts(u, offs);
      apCell, freeSpace := [], USABLE_SPACE;
      var idx: int := aDisk[FIRST_CELL];
      while idx != 0
        invariant 0 <= idx && Reading(u, offs, n, idx, apCell, freeSpace)
        decreases |offs| - n
      {
        var sz := CellSizeAt(idx);
        if sz == 0 {
          ReadingEnds(u, offs, n, idx, apCell, freeSpace);
          return false, 0;
        }
        ReadingOn(u, offs, n, idx, apCell, freeSpace);
        freeSpace := freeSpace - sz;
        apCell := apCell + [OnPage(idx)];
        idx, n := aDisk[idx / 2 + INEXT], n + 1;
      }
      ReadingEnds(u, offs, n, idx, apCell, freeSpace);
      ok := true;
    }

    /** The bytes of the cell at idx, or 0 if no cell can be there. */
    method CellSizeAt(idx: nat) returns (sz: int)
      requires aDisk.Length == WORDS
      ensures sz == 0 <==> !CellFits(aDisk[..], idx)
      ensures sz != 0 ==> sz == Extent(aDisk[..], idx).size
    {
      if idx > LAST_CELL || idx < PAGE_HDR || idx % 4 != 0 { return 0; }
      assert aDisk[idx / 2..idx / 2 + 6] == aDisk[..][idx / 2..idx / 2 + 6];
      sz := SizeOf(aDisk[idx / 2..idx / 2 + 6]);
      if idx + sz > SQLITE_USABLE_SIZE { return 0; }
    }

    method ReadAt(at: nat) returns (x: nat)
      requires aDisk.Length == WORDS && at + 2 <= SQLITE_USABLE_SIZE
      ensures x == Read16(aDisk[..], at)
    {
      x := if at % 2 == 0 then aDisk[at / 2] else aDisk[at / 2] / 256 + aDisk[at / 2 + 1] % 256 * 256;
    }

    /** The free bytes along the chain of free blocks; not ok if the chain leaves the page or does not ascend. */
    method ReadFree() returns (ok: bool)
      requires aDisk.Length == WORDS
      modifies this`nFree
      ensures ok <==> FreeSum(aDisk[..], aDisk[FIRST_FREE]).Some?
      ensures ok ==> FreeSum(aDisk[..], aDisk[FIRST_FREE]) == Some(nFree)
    {
      ghost var u := aDisk[..];
      nFree := 0;
      var idx: nat := aDisk[FIRST_FREE];
      while idx != 0
        invariant Counting(u, idx, nFree)
        decreases if idx == 0 || idx > SQLITE_USABLE_SIZE - 4 then 0 else SQLITE_USABLE_SIZE - idx
      {
        if idx > SQLITE_USABLE_SIZE - 4 || idx < PAGE_HDR { return false; }
        var size := ReadAt(idx);
        nFree := nFree + size;
        var iNext := ReadAt(idx + 2);
        if iNext > 0 && iNext <= idx { return false; }
        idx := iNext;
      }
      ok := true;
    }

    /**
     * initPage on a page just read: its cells in chain order and its free bytes, if the page passes.
     * A chain of cells that never ends would run over the array of cells, so the chain is taken to end somewhere.
     */
    method InitPage(ghost offs: seq<int>) returns (ok: bool)
      requires aDisk.Length == WORDS && Walk(aDisk[..], aDisk[FIRST_CELL], offs)
      modifies this`apCell, this`nFree
      ensures ok <==> WellFormed(aDisk[..], offs)
      ensures ok ==> apCell == Pointers(offs) && FreeSum(aDisk[..], aDisk[FIRST_FREE]) == Some(nFree)
    {
      var freeSpace;
      ok, freeSpace := ReadCells(offs);
      if !ok { return; }
      ok := ReadFree();
      if !ok { return; }
      if |apCell| == 0 && nFree == 0 { return true; }
      ok := nFree == freeSpace;
    }

    /** Read back after its cells were relinked, the page is what it was, unless a cell begins too near its end. */
    method ReadBack() returns (ok: bool)
      requires Valid() && Linked(aDisk[..], apCell, |apCell| + 1)
      modifies this`apCell, this`nFree
      ensures ok <==> forall i | 0 <= i < |old(apCell)| :: old(apCell)[i].off <= LAST_CELL
      ensures ok ==> Valid() && apCell == old(apCell) && nFree == old(nFree)
    {
      ReadsBack(aDisk[..], apCell, free, nFree);
      ok := InitPage(Reachable(apCell, 0));
    }
  }
}

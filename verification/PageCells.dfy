/** Cells on a page: their content, and what keeps a page in order. */
module PageCells {
  import opened PageTiles
  import opened PageMemory

  /** A cell on the page, by offset; or, on an overfull page, one that did not fit. */
  datatype CellPtr = OnPage(off: int) | OffPage(words: seq<Word>)

  const INEXT := 3

  /** A cell's words but for the link to the next cell, which is rebuilt later. */
  function Masked(w: seq<Word>): seq<Word> {
    if |w| > INEXT then w[INEXT := 0] else w
  }

  ghost predicate AllOnPage(ap: seq<CellPtr>) {
    forall i | 0 <= i < |ap| :: ap[i].OnPage? && CellPlace(ap[i].off)
  }

  function Extents(u: seq<Word>, ap: seq<CellPtr>): (c: seq<Blk>)
    requires |u| == WORDS && AllOnPage(ap)
    ensures |c| == |ap| && forall i | 0 <= i < |ap| :: c[i] == Extent(u, ap[i].off)
  {
    seq(|ap|, i requires 0 <= i < |ap| => Extent(u, ap[i].off))
  }

  ghost function Content(u: seq<Word>, b: Blk): seq<Word>
    requires |u| == WORDS && Aligned(b)
  {
    Masked(Chunk(u, b))
  }

  ghost function Contents(u: seq<Word>, c: seq<Blk>): (s: seq<seq<Word>>)
    requires |u| == WORDS && AllAligned(c)
    ensures |s| == |c| && forall i | 0 <= i < |c| :: s[i] == Content(u, c[i])
  {
    seq(|c|, i requires 0 <= i < |c| => Content(u, c[i]))
  }

  /** Header, cells and free blocks tile the page; the free list is chained, and nFree is its size. */
  ghost predicate PageOk(u: seq<Word>, ap: seq<CellPtr>, f: seq<Blk>, nFree: int) {
    && |u| == WORDS && AllOnPage(ap) && Tiled(f, Extents(u, ap)) && FreeList(u, f) && nFree == TotalSize(f)
  }

  ghost function CellContents(u: seq<Word>, ap: seq<CellPtr>): seq<seq<Word>>
    requires |u| == WORDS && AllOnPage(ap) && AllAligned(Extents(u, ap))
  {
    Contents(u, Extents(u, ap))
  }

  /** The page is in order and has these cells, links apart. */
  ghost predicate PageHolds(u: seq<Word>, ap: seq<CellPtr>, f: seq<Blk>, nFree: int, s: seq<seq<Word>>) {
    PageOk(u, ap, f, nFree) && s == CellContents(u, ap)
  }

  // ---------------------------------------------------------------- frames

  /** Only words of this stretch differ. */
  ghost predicate OnlyIn(u: seq<Word>, v: seq<Word>, b: Blk) {
    |v| == |u| && forall w | 0 <= w < |u| && !(b.start / 2 <= w < (b.start + b.size) / 2) :: v[w] == u[w]
  }

  lemma OutsideSame(u: seq<Word>, v: seq<Word>, b: Blk, c: Blk)
    requires |u| == WORDS && OnlyIn(u, v, b) && Disjoint(b, c) && Aligned(b) && Aligned(c)
    ensures SameWords(u, v, c)
  {
    Halves(b);
    Halves(c);
  }

  /** If no cell's words change, neither places, sizes nor contents do. */
  lemma CellsKept(u: seq<Word>, v: seq<Word>, ap: seq<CellPtr>)
    requires |u| == WORDS && |v| == WORDS && AllOnPage(ap) && AllAligned(Extents(u, ap))
    requires forall i | 0 <= i < |ap| :: SameWords(u, v, Extents(u, ap)[i])
    ensures Extents(v, ap) == Extents(u, ap) && CellContents(v, ap) == CellContents(u, ap)
  {
    forall i | 0 <= i < |ap| ensures Extent(v, ap[i].off) == Extent(u, ap[i].off) && Content(v, Extents(u, ap)[i]) == Content(u, Extents(u, ap)[i]) {
      assert Aligned(Extents(u, ap)[i]);
      SameCell(u, v, ap[i].off);
    }
  }

  lemma FreeListKept(u: seq<Word>, v: seq<Word>, f: seq<Blk>, b: Blk)
    requires FreeList(u, f) && AllAligned(f) && OnlyIn(u, v, b) && Aligned(b)
    requires forall i | 0 <= i < |f| :: Disjoint(f[i], b)
    ensures FreeList(v, f)
  {
    Halves(b);
    forall i | 0 <= i < |f| ensures BlockAt(v, f, i) {
      assert Aligned(f[i]) && BlockAt(u, f, i);
      Halves(f[i]);
    }
  }

  // ---------------------------------------------------------------- allocation

  /** Space at the front of block k is taken: the cells are untouched, and the page is tiled with the new stretch. */
  lemma TakenOk(u: seq<Word>, ap: seq<CellPtr>, f: seq<Blk>, nFree: int, k: nat, n: int, i: nat)
    requires PageOk(u, ap, f, nFree) && k < |f| && 0 < n <= f[k].size && n % 4 == 0 && i <= |ap|
    ensures var v := TakenWords(u, f, k, n); var c := Extents(u, ap);
      && Extents(v, ap) == c && CellContents(v, ap) == CellContents(u, ap)
      && Tiled(Taken(f, k, n), c[..i] + [Blk(f[k].start, n)] + c[i..]) && FreeList(v, Taken(f, k, n))
      && TotalSize(Taken(f, k, n)) == nFree - n
  {
    var v, c := TakenWords(u, f, k, n), Extents(u, ap);
    assert c == c[..i] + c[i..];
    TiledTaken(f, c[..i], c[i..], k, n);
    TakenList(u, f, k, n);
    TakenSum(f, k, n);
    forall j | 0 <= j < |ap| ensures SameWords(u, v, c[j]) {
      assert Aligned(c[j]);
      forall m | 0 <= m < |f| ensures Disjoint(f[m], c[j]) { FreeApart(f, c, m, j); }
      TakenOutside(u, f, k, n, c[j]);
    }
    CellsKept(u, v, ap);
  }

  /** The page with a stretch set aside between cells i - 1 and i. */
  ghost predicate Reserved(u: seq<Word>, ap: seq<CellPtr>, f: seq<Blk>, nFree: int, b: Blk, i: nat) {
    && |u| == WORDS && AllOnPage(ap) && i <= |ap| && AllAligned(Extents(u, ap))
    && Tiled(f, Extents(u, ap)[..i] + [b] + Extents(u, ap)[i..]) && FreeList(u, f) && nFree == TotalSize(f)
  }

  /** The cell's words are put into the stretch set aside for it. */
  lemma FilledExtents(u: seq<Word>, v: seq<Word>, ap: seq<CellPtr>, f: seq<Blk>, nFree: int, b: Blk, i: nat, cell: seq<Word>)
    requires Reserved(u, ap, f, nFree, b, i) && OnlyIn(u, v, b)
    requires |cell| >= 6 && b.size == SizeOf(cell) == 2 * |cell| && Aligned(b) && Chunk(v, b) == cell
    ensures var ap1 := ap[..i] + [OnPage(b.start)] + ap[i..];
      && |v| == WORDS && AllOnPage(ap1) && Extents(v, ap1) == Extents(u, ap)[..i] + [b] + Extents(u, ap)[i..]
    ensures Extents(v, ap) == Extents(u, ap) && CellContents(v, ap) == CellContents(u, ap)
    ensures FreeList(v, f) && Content(v, b) == Masked(cell)
  {
    var c, ap1 := Extents(u, ap), ap[..i] + [OnPage(b.start)] + ap[i..];
    ReservedApart(f, c, b, i);
    FreeListKept(u, v, f, b);
    forall j | 0 <= j < |ap| ensures SameWords(u, v, c[j]) {
      assert Aligned(c[j]);
      OutsideSame(u, v, b, c[j]);
    }
    CellsKept(u, v, ap);
    FilledHere(v, b, cell);
    PointersAround(v, ap, c, b, i);
  }

  lemma PointersAround(v: seq<Word>, ap: seq<CellPtr>, c: seq<Blk>, b: Blk, i: nat)
    requires |v| == WORDS && AllOnPage(ap) && Extents(v, ap) == c && i <= |ap| && CellPlace(b.start) && Extent(v, b.start) == b
    ensures var ap1 := ap[..i] + [OnPage(b.start)] + ap[i..]; AllOnPage(ap1) && Extents(v, ap1) == c[..i] + [b] + c[i..]
  {
    var ap1, t := ap[..i] + [OnPage(b.start)] + ap[i..], c[..i] + [b] + c[i..];
    forall j | 0 <= j < |ap1| ensures ap1[j].OnPage? && CellPlace(ap1[j].off) && Extent(v, ap1[j].off) == t[j] {
      assert ap1[j] == if j < i then ap[j] else if j == i then OnPage(b.start) else ap[j - 1];
      assert t[j] == if j < i then c[j] else if j == i then b else c[j - 1];
    }
  }

  lemma Filled(u: seq<Word>, v: seq<Word>, ap: seq<CellPtr>, f: seq<Blk>, nFree: int, b: Blk, i: nat, cell: seq<Word>)
    requires Reserved(u, ap, f, nFree, b, i) && OnlyIn(u, v, b)
    requires |cell| >= 6 && b.size == SizeOf(cell) == 2 * |cell| && Aligned(b) && Chunk(v, b) == cell
    ensures PageOk(v, ap[..i] + [OnPage(b.start)] + ap[i..], f, nFree)
    ensures CellContents(v, ap[..i] + [OnPage(b.start)] + ap[i..]) == CellContents(u, ap)[..i] + [Masked(cell)] + CellContents(u, ap)[i..]
  {
    FilledExtents(u, v, ap, f, nFree, b, i, cell);
    ContentsAround(v, Extents(u, ap), b, i);
  }

  lemma ContentsAround(v: seq<Word>, c: seq<Blk>, b: Blk, i: nat)
    requires |v| == WORDS && AllAligned(c) && Aligned(b) && i <= |c|
    ensures AllAligned(c[..i] + [b] + c[i..])
    ensures Contents(v, c[..i] + [b] + c[i..]) == Contents(v, c)[..i] + [Content(v, b)] + Contents(v, c)[i..]
  {
    var t := c[..i] + [b] + c[i..];
    forall j | 0 <= j < |t| ensures t[j] == if j < i then c[j] else if j == i then b else c[j - 1] {}
  }

  lemma FilledHere(v: seq<Word>, b: Blk, cell: seq<Word>)
    requires |v| == WORDS && |cell| >= 6 && b.size == SizeOf(cell) == 2 * |cell| && Aligned(b) && Chunk(v, b) == cell
    ensures CellPlace(b.start) && Extent(v, b.start) == b && Content(v, b) == Masked(cell)
  {
    Halves(b);
    var s := v[b.start / 2..b.start / 2 + 6];
    forall j | 0 <= j < 6 ensures s[j] == cell[j] { assert Chunk(v, b)[j] == v[b.start / 2 + j]; }
  }

  lemma ReservedApart(f: seq<Blk>, c: seq<Blk>, b: Blk, i: nat)
    requires i <= |c| && Tiled(f, c[..i] + [b] + c[i..])
    ensures Aligned(b) && forall j | 0 <= j < |c| :: Disjoint(b, c[j])
    ensures forall j | 0 <= j < |f| :: Disjoint(f[j], b)
  {
    var t := c[..i] + [b] + c[i..];
    assert t[i] == b;
    forall j | 0 <= j < |c| ensures Disjoint(b, c[j]) {
      var m := if j < i then j else j + 1;
      assert t[m] == c[j];
      if m < i { assert Disjoint(t[m], t[i]); } else { assert Disjoint(t[i], t[m]); }
    }
    forall j | 0 <= j < |f| ensures Disjoint(f[j], b) { FreeApart(f, t, j, i); }
  }

  // ---------------------------------------------------------------- release

  /** Cell i's space is given back at its place p among the free blocks. */
  lemma FreedOk(u: seq<Word>, v: seq<Word>, ap: seq<CellPtr>, ap1: seq<CellPtr>, f: seq<Blk>, nFree: int, i: nat, p: nat, b: Blk)
    requires PageOk(u, ap, f, nFree) && i < |ap| && b == Extents(u, ap)[i] && Place(f, p, b)
    requires v == FreedWords(u, f, p, b) && ap1 == ap[..i] + ap[i + 1..]
    ensures PageOk(v, ap1, Freed(f, p, b), nFree + b.size)
    ensures CellContents(v, ap1) == CellContents(u, ap)[..i] + CellContents(u, ap)[i + 1..]
  {
    var c := Extents(u, ap);
    assert c == c[..i] + [b] + c[i + 1..];
    TiledFreed(f, c[..i], b, c[i + 1..], p);
    FreedList(u, f, p, b);
    FreedSum(f, p, b);
    FreedCells(u, v, ap, ap1, f, nFree, i, p, b);
    ContentsWithout(u, c, i);
  }

  lemma ContentsWithout(u: seq<Word>, c: seq<Blk>, i: nat)
    requires |u| == WORDS && AllAligned(c) && i < |c|
    ensures AllAligned(c[..i] + c[i + 1..])
    ensures Contents(u, c[..i] + c[i + 1..]) == Contents(u, c)[..i] + Contents(u, c)[i + 1..]
  {
    var t := c[..i] + c[i + 1..];
    forall j | 0 <= j < |t| ensures t[j] == c[if j < i then j else j + 1] {}
  }

  lemma FreedCells(u: seq<Word>, v: seq<Word>, ap: seq<CellPtr>, ap1: seq<CellPtr>, f: seq<Blk>, nFree: int, i: nat, p: nat, b: Blk)
    requires PageOk(u, ap, f, nFree) && i < |ap| && b == Extents(u, ap)[i] && Place(f, p, b)
    requires v == FreedWords(u, f, p, b) && ap1 == ap[..i] + ap[i + 1..]
    ensures |v| == WORDS && AllOnPage(ap1) && Extents(v, ap1) == Extents(u, ap)[..i] + Extents(u, ap)[i + 1..]
    ensures AllAligned(Extents(u, ap1)) && Extents(v, ap1) == Extents(u, ap1) && CellContents(v, ap1) == CellContents(u, ap1)
  {
    var c := Extents(u, ap);
    ExtentsWithout(u, ap, i);
    ContentsWithout(u, c, i);
    OthersKept(u, v, f, c, i, p, Extents(u, ap1));
    CellsKept(u, v, ap1);
  }

  lemma OthersKept(u: seq<Word>, v: seq<Word>, f: seq<Blk>, c: seq<Blk>, i: nat, p: nat, c1: seq<Blk>)
    requires |u| == WORDS && FreeList(u, f) && Tiled(f, c) && i < |c| && Place(f, p, c[i])
    requires v == FreedWords(u, f, p, c[i]) && c1 == c[..i] + c[i + 1..]
    ensures forall j | 0 <= j < |c1| :: SameWords(u, v, c1[j])
  {
    forall j | 0 <= j < |c1| ensures SameWords(u, v, c1[j]) {
      OtherCellKept(u, f, c, i, p, if j < i then j else j + 1);
    }
  }

  lemma ExtentsWithout(u: seq<Word>, ap: seq<CellPtr>, i: nat)
    requires |u| == WORDS && AllOnPage(ap) && i < |ap|
    ensures AllOnPage(ap[..i] + ap[i + 1..])
    ensures Extents(u, ap[..i] + ap[i + 1..]) == Extents(u, ap)[..i] + Extents(u, ap)[i + 1..]
  {
    var ap1 := ap[..i] + ap[i + 1..];
    forall j | 0 <= j < |ap1| ensures ap1[j] == ap[if j < i then j else j + 1] {}
  }

  lemma OtherCellKept(u: seq<Word>, f: seq<Blk>, c: seq<Blk>, i: nat, p: nat, j: nat)
    requires |u| == WORDS && FreeList(u, f) && Tiled(f, c) && i < |c| && j < |c| && i != j && Place(f, p, c[i])
    ensures SameWords(u, FreedWords(u, f, p, c[i]), c[j])
  {
    OtherCell(f, c, i, j);
    FreedOutside(u, f, p, c[i], c[j]);
  }

  lemma OtherCell(f: seq<Blk>, c: seq<Blk>, i: nat, j: nat)
    requires Tiled(f, c) && i < |c| && j < |c| && i != j
    ensures Aligned(c[i]) && Aligned(c[j]) && Disjoint(c[i], c[j]) && forall m | 0 <= m < |f| :: Disjoint(f[m], c[j])
  {
    if i < j { assert Disjoint(c[i], c[j]); } else { assert Disjoint(c[j], c[i]); }
    forall m | 0 <= m < |f| ensures Disjoint(f[m], c[j]) { FreeApart(f, c, m, j); }
  }
}

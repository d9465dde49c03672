/** The chain of cells on a page, and what a page read from the file has to pass. */
module PageInit {
  import opened Wrappers
  import opened FileFormat
  import opened PageTiles
  import opened PageMemory
  import opened PageCells

  /** No cell begins behind this place. */
  const LAST_CELL := 1008

  function OffsetAt(ap: seq<CellPtr>, i: nat): int {
    if i < |ap| && ap[i].OnPage? then ap[i].off else 0
  }

  /** The word that names cell i: the header's, or the previous cell's. */
  function CellLink(ap: seq<CellPtr>, i: nat): int
    requires i <= |ap|
  {
    if i == 0 then FIRST_CELL else OffsetAt(ap, i - 1) / 2 + INEXT
  }

  /** The first n links of the chain of cells are set. */
  ghost predicate Linked(u: seq<Word>, ap: seq<CellPtr>, n: nat) {
    |u| == WORDS && AllOnPage(ap) && n <= |ap| + 1 &&
    forall i | 0 <= i < n :: u[CellLink(ap, i)] == OffsetAt(ap, i)
  }

  // ---------------------------------------------------------------- relinking

  /** A link is written: cells and free blocks stay. */
  lemma LinkKeeps(u: seq<Word>, v: seq<Word>, ap: seq<CellPtr>, f: seq<Blk>, nFree: int, s: seq<seq<Word>>, i: nat, w: int, x: Word)
    requires PageHolds(u, ap, f, nFree, s) && i <= |ap| && w == CellLink(ap, i) && 0 <= w < WORDS && v == u[w := x]
    ensures PageHolds(v, ap, f, nFree, s)
  {
    if i == 0 {
      HeaderKeeps(u, v, ap, f, nFree, s, x);
    } else {
      CellLinkKeeps(u, v, ap, f, nFree, s, i - 1, w, x);
    }
  }

  lemma HeaderKeeps(u: seq<Word>, v: seq<Word>, ap: seq<CellPtr>, f: seq<Blk>, nFree: int, s: seq<seq<Word>>, x: Word)
    requires PageHolds(u, ap, f, nFree, s) && v == u[FIRST_CELL := x]
    ensures PageHolds(v, ap, f, nFree, s)
  {
    var c := Extents(u, ap);
    forall j | 0 <= j < |ap| ensures SameWords(u, v, c[j]) {
      assert Aligned(c[j]);
      Halves(c[j]);
    }
    CellsKept(u, v, ap);
    forall j | 0 <= j < |f| ensures BlockAt(v, f, j) {
      assert Aligned(f[j]) && BlockAt(u, f, j);
      Halves(f[j]);
    }
  }

  lemma CellLinkKeeps(u: seq<Word>, v: seq<Word>, ap: seq<CellPtr>, f: seq<Blk>, nFree: int, s: seq<seq<Word>>, i: nat, w: int, x: Word)
    requires PageHolds(u, ap, f, nFree, s) && i < |ap| && w == ap[i].off / 2 + INEXT && 0 <= w < WORDS && v == u[w := x]
    ensures PageHolds(v, ap, f, nFree, s)
  {
    var c := Extents(u, ap);
    assert Aligned(c[i]);
    Halves(c[i]);
    assert OnlyIn(u, v, c[i]);
    forall j | 0 <= j < |ap| ensures Extent(v, ap[j].off) == c[j] && Content(v, c[j]) == Content(u, c[j]) {
      LinkKeepsCell(u, v, ap, c, i, j, x);
    }
    forall j | 0 <= j < |f| ensures Disjoint(f[j], c[i]) { FreeApart(f, c, j, i); }
    FreeListKept(u, v, f, c[i]);
    SamePlaces(u, v, ap, f, nFree, s, c);
  }

  lemma SamePlaces(u: seq<Word>, v: seq<Word>, ap: seq<CellPtr>, f: seq<Blk>, nFree: int, s: seq<seq<Word>>, c: seq<Blk>)
    requires PageHolds(u, ap, f, nFree, s) && c == Extents(u, ap) && |v| == WORDS && FreeList(v, f)
    requires forall j | 0 <= j < |ap| :: Extent(v, ap[j].off) == c[j] && Content(v, c[j]) == Content(u, c[j])
    ensures PageHolds(v, ap, f, nFree, s)
  {
    assert Extents(v, ap) == c;
    assert CellContents(v, ap) == s;
  }

  lemma LinkKeepsCell(u: seq<Word>, v: seq<Word>, ap: seq<CellPtr>, c: seq<Blk>, i: nat, j: nat, x: Word)
    requires |u| == WORDS && AllOnPage(ap) && c == Extents(u, ap) && AllAligned(c) && Apart(c) && i < |ap| && j < |ap|
    requires ap[i].off / 2 + INEXT < WORDS && v == u[ap[i].off / 2 + INEXT := x] && OnlyIn(u, v, c[i])
    ensures Extent(v, ap[j].off) == c[j] && Content(v, c[j]) == Content(u, c[j])
  {
    assert Aligned(c[i]) && Aligned(c[j]);
    if i == j {
      OwnLink(u, v, ap[i].off, x);
    } else {
      assert Disjoint(c[i], c[j]);
      OutsideSame(u, v, c[i], c[j]);
      SameCell(u, v, ap[j].off);
    }
  }

  /** A cell's own link is neither its size nor its content. */
  lemma OwnLink(u: seq<Word>, v: seq<Word>, off: int, x: Word)
    requires |u| == WORDS && CellPlace(off) && Aligned(Extent(u, off)) && v == u[off / 2 + INEXT := x]
    ensures Extent(v, off) == Extent(u, off) && Content(v, Extent(u, off)) == Content(u, Extent(u, off))
  {
    var b, w := Extent(u, off), off / 2;
    Halves(b);
    var p, q := u[w..w + 6], v[w..w + 6];
    assert q[2] == p[2] && q[4] == p[4] && q[5] == p[5];
    assert Chunk(v, b) == Chunk(u, b)[INEXT := x];
  }

  /** Links lie in different words. */
  lemma LinksApart(u: seq<Word>, ap: seq<CellPtr>, f: seq<Blk>, nFree: int, i: nat, j: nat)
    requires PageOk(u, ap, f, nFree) && i < j <= |ap|
    ensures CellLink(ap, i) != CellLink(ap, j)
  {
    var c := Extents(u, ap);
    assert Aligned(c[j - 1]);
    if i > 0 {
      assert Aligned(c[i - 1]) && Disjoint(c[i - 1], c[j - 1]);
    }
  }

  lemma LinkSet(u: seq<Word>, ap: seq<CellPtr>, f: seq<Blk>, nFree: int, s: seq<seq<Word>>, i: nat, x: Word)
    requires PageHolds(u, ap, f, nFree, s) && i <= |ap| && Linked(u, ap, i) && x == OffsetAt(ap, i)
    ensures 0 <= CellLink(ap, i) < WORDS
    ensures PageHolds(u[CellLink(ap, i) := x], ap, f, nFree, s) && Linked(u[CellLink(ap, i) := x], ap, i + 1)
  {
    LinkInRange(ap, i);
    LinkKeeps(u, u[CellLink(ap, i) := x], ap, f, nFree, s, i, CellLink(ap, i), x);
    forall j | 0 <= j < i ensures CellLink(ap, i) != CellLink(ap, j) {
      LinksApart(u, ap, f, nFree, j, i);
    }
    LinkedMore(u, ap, i, x);
  }

  lemma LinkedMore(u: seq<Word>, ap: seq<CellPtr>, i: nat, x: Word)
    requires Linked(u, ap, i) && i <= |ap| && x == OffsetAt(ap, i) && 0 <= CellLink(ap, i) < WORDS
    requires forall j | 0 <= j < i :: CellLink(ap, i) != CellLink(ap, j)
    ensures Linked(u[CellLink(ap, i) := x], ap, i + 1)
  {
    forall j | 0 <= j < i + 1 ensures u[CellLink(ap, i) := x][CellLink(ap, j)] == OffsetAt(ap, j) {
      LinkInRange(ap, j);
    }
  }

  lemma OffsetIsWord(ap: seq<CellPtr>, i: nat)
    requires AllOnPage(ap)
    ensures 0 <= OffsetAt(ap, i) < 65536
  {}

  lemma NoneLinked(u: seq<Word>, ap: seq<CellPtr>, f: seq<Blk>, nFree: int)
    requires PageOk(u, ap, f, nFree)
    ensures Linked(u, ap, 0) && AllOnPage(ap)
  {}

  lemma LinkInRange(ap: seq<CellPtr>, j: nat)
    requires AllOnPage(ap) && j <= |ap|
    ensures 0 <= CellLink(ap, j) < WORDS
  {}

  // ---------------------------------------------------------------- reading a page

  /** A place where a cell can be. */
  ghost predicate CellFits(u: seq<Word>, idx: int) {
    |u| == WORDS && PAGE_HDR <= idx <= LAST_CELL && idx % 4 == 0 && idx + Extent(u, idx).size <= SQLITE_USABLE_SIZE
  }

  function NextCell(u: seq<Word>, idx: int): int
    requires |u| == WORDS && PAGE_HDR <= idx <= LAST_CELL
  {
    u[idx / 2 + INEXT]
  }

  /** From idx on the chain of cells runs through offs, and then ends or meets a place where no cell can be. */
  ghost predicate Walk(u: seq<Word>, idx: int, offs: seq<int>)
    decreases |offs|
  {
    if offs == [] then idx == 0 || !CellFits(u, idx)
    else idx == offs[0] && idx != 0 && CellFits(u, idx) && Walk(u, NextCell(u, idx), offs[1..])
  }

  /** And then it ends. */
  ghost predicate Ends(u: seq<Word>, idx: int, offs: seq<int>)
    decreases |offs|
  {
    if offs == [] then idx == 0
    else idx == offs[0] && idx != 0 && CellFits(u, idx) && Ends(u, NextCell(u, idx), offs[1..])
  }

  /** Bytes of the cells at offs. */
  ghost function CellSum(u: seq<Word>, offs: seq<int>): int {
    if offs == [] || !CellFits(u, offs[0]) then 0 else Extent(u, offs[0]).size + CellSum(u, offs[1..])
  }

  /** The 16 bits at a byte offset, low byte first. */
  function Read16(u: seq<Word>, at: int): nat
    requires |u| == WORDS && 0 <= at && at + 2 <= SQLITE_USABLE_SIZE
  {
    if at % 2 == 0 then u[at / 2] else u[at / 2] / 256 + u[at / 2 + 1] % 256 * 256
  }

  /** Free bytes along the chain of free blocks, unless it leaves the page or does not ascend. */
  ghost function FreeSum(u: seq<Word>, idx: int): Option<int>
    requires |u| == WORDS
    decreases if idx == 0 then 0 else SQLITE_USABLE_SIZE + 2 - idx
  {
    if idx == 0 then Some(0)
    else if idx > SQLITE_USABLE_SIZE - 4 || idx < PAGE_HDR then None
    else
      var next: int := Read16(u, idx + 2);
      if 0 < next <= idx then None
      else match FreeSum(u, next)
        case None => None
        case Some(n) => Some(Read16(u, idx) + n)
  }

  /** What initPage looks for: both chains end, and cells and free bytes fill the page; or there is nothing at all. */
  ghost predicate WellFormed(u: seq<Word>, offs: seq<int>) {
    && |u| == WORDS && Ends(u, u[FIRST_CELL], offs) && FreeSum(u, u[FIRST_FREE]).Some?
    && var n := FreeSum(u, u[FIRST_FREE]).value;
      (offs == [] && n == 0) || n + CellSum(u, offs) == USABLE_SPACE
  }

  function Pointers(offs: seq<int>): seq<CellPtr> {
    seq(|offs|, i requires 0 <= i < |offs| => OnPage(offs[i]))
  }

  /** After n cells of the walk. */
  ghost predicate Reading(u: seq<Word>, offs: seq<int>, n: nat, idx: int, ap: seq<CellPtr>, freeSpace: int) {
    && |u| == WORDS && n <= |offs| && ap == Pointers(offs[..n]) && Walk(u, idx, offs[n..])
    && (Ends(u, u[FIRST_CELL], offs) <==> Ends(u, idx, offs[n..]))
    && freeSpace == USABLE_SPACE - CellSum(u, offs) + CellSum(u, offs[n..])
  }

  lemma ReadingOn(u: seq<Word>, offs: seq<int>, n: nat, idx: int, ap: seq<CellPtr>, freeSpace: int)
    requires Reading(u, offs, n, idx, ap, freeSpace) && idx != 0 && CellFits(u, idx)
    ensures n < |offs| && Reading(u, offs, n + 1, NextCell(u, idx), ap + [OnPage(idx)], freeSpace - Extent(u, idx).size)
  {
    assert offs[n..] != [];
    assert offs[n..][1..] == offs[n + 1..];
    assert Pointers(offs[..n + 1]) == Pointers(offs[..n]) + [OnPage(offs[n])];
  }

  lemma ReadingStarts(u: seq<Word>, offs: seq<int>)
    requires |u| == WORDS && Walk(u, u[FIRST_CELL], offs)
    ensures Reading(u, offs, 0, u[FIRST_CELL], [], USABLE_SPACE)
  {
    assert offs[0..] == offs;
  }

  /** The walk is over: at the end of the chain, or at a place where no cell can be. */
  lemma ReadingEnds(u: seq<Word>, offs: seq<int>, n: nat, idx: int, ap: seq<CellPtr>, freeSpace: int)
    requires Reading(u, offs, n, idx, ap, freeSpace) && (idx == 0 || !CellFits(u, idx))
    ensures Ends(u, u[FIRST_CELL], offs) <==> idx == 0
    ensures ap == Pointers(offs) && freeSpace == USABLE_SPACE - CellSum(u, offs)
  {
    assert offs[n..] == [];
    assert offs[..n] == offs;
  }

  /** Free bytes found so far, and those still to come. */
  ghost predicate Counting(u: seq<Word>, idx: int, nFree: int) {
    |u| == WORDS && FreeSum(u, u[FIRST_FREE]) == match FreeSum(u, idx) case None => None case Some(n) => Some(nFree + n)
  }

  // ---------------------------------------------------------------- what was relinked is read back

  /** The cells from i on up to the first one too near the end of the page. */
  ghost function Reachable(ap: seq<CellPtr>, i: nat): seq<int>
    decreases |ap| - i
  {
    if i < |ap| && OffsetAt(ap, i) <= LAST_CELL then [OffsetAt(ap, i)] + Reachable(ap, i + 1) else []
  }

  lemma {:induction false} ReachableAll(ap: seq<CellPtr>, i: nat)
    requires AllOnPage(ap) && i <= |ap|
    ensures |Reachable(ap, i)| <= |ap| - i
    ensures forall k | 0 <= k < |Reachable(ap, i)| :: Reachable(ap, i)[k] == ap[i + k].off
    ensures |Reachable(ap, i)| == |ap| - i <==> forall k | i <= k < |ap| :: ap[k].off <= LAST_CELL
    decreases |ap| - i
  {
    if i < |ap| && OffsetAt(ap, i) <= LAST_CELL {
      ReachableAll(ap, i + 1);
    }
  }

  lemma CellHere(u: seq<Word>, ap: seq<CellPtr>, f: seq<Blk>, nFree: int, i: nat)
    requires PageOk(u, ap, f, nFree) && i < |ap|
    ensures OffsetAt(ap, i) == ap[i].off >= PAGE_HDR && (CellFits(u, ap[i].off) <==> ap[i].off <= LAST_CELL)
    ensures Extents(u, ap)[i] == Extent(u, ap[i].off)
  {
    assert Aligned(Extents(u, ap)[i]);
  }

  lemma NextHere(u: seq<Word>, ap: seq<CellPtr>, i: nat)
    requires Linked(u, ap, |ap| + 1) && i < |ap| && ap[i].off <= LAST_CELL
    ensures NextCell(u, ap[i].off) == OffsetAt(ap, i + 1)
  {
    assert u[CellLink(ap, i + 1)] == OffsetAt(ap, i + 1);
  }

  lemma {:induction false} WalkBack(u: seq<Word>, ap: seq<CellPtr>, f: seq<Blk>, nFree: int, i: nat)
    requires PageOk(u, ap, f, nFree) && Linked(u, ap, |ap| + 1) && i <= |ap|
    ensures Walk(u, OffsetAt(ap, i), Reachable(ap, i))
    ensures Ends(u, OffsetAt(ap, i), Reachable(ap, i)) <==> |Reachable(ap, i)| == |ap| - i
    ensures |Reachable(ap, i)| == |ap| - i ==> CellSum(u, Reachable(ap, i)) == TotalSize(Extents(u, ap)[i..])
    decreases |ap| - i
  {
    if i < |ap| {
      CellHere(u, ap, f, nFree, i);
      if ap[i].off <= LAST_CELL {
        NextHere(u, ap, i);
        WalkBack(u, ap, f, nFree, i + 1);
        assert Reachable(ap, i)[1..] == Reachable(ap, i + 1);
        assert Extents(u, ap)[i..][1..] == Extents(u, ap)[i + 1..];
      }
    }
  }

  lemma {:induction false} FreeBack(u: seq<Word>, f: seq<Blk>, i: nat)
    requires FreeList(u, f) && AllAligned(f) && Spaced(f) && i <= |f|
    ensures FreeSum(u, StartOf(f, i)) == Some(TotalSize(f[i..]))
    decreases |f| - i
  {
    if i < |f| {
      FreeBack(u, f, i + 1);
      BlockRead(u, f, i);
      FreeStep(u, f[i].start, f[i].size, StartOf(f, i + 1), TotalSize(f[i + 1..]));
      assert f[i..][1..] == f[i + 1..];
    }
  }

  lemma BlockRead(u: seq<Word>, f: seq<Blk>, i: nat)
    requires FreeList(u, f) && AllAligned(f) && Spaced(f) && i < |f|
    ensures PAGE_HDR <= f[i].start <= SQLITE_USABLE_SIZE - 4 && f[i].start % 2 == 0
    ensures u[f[i].start / 2] == f[i].size && u[f[i].start / 2 + 1] == StartOf(f, i + 1)
    ensures StartOf(f, i + 1) == 0 || StartOf(f, i + 1) > f[i].start
  {
    assert Aligned(f[i]) && BlockAt(u, f, i);
    Halves(f[i]);
  }

  lemma FreeStep(u: seq<Word>, idx: int, size: int, next: int, rest: int)
    requires |u| == WORDS && PAGE_HDR <= idx <= SQLITE_USABLE_SIZE - 4 && idx % 2 == 0
    requires u[idx / 2] == size && u[idx / 2 + 1] == next && (next == 0 || next > idx)
    requires FreeSum(u, next) == Some(rest)
    ensures FreeSum(u, idx) == Some(size + rest)
  {}

  /** A page in order whose cells are linked is well formed exactly if no cell is too near its end. */
  lemma ReadsBack(u: seq<Word>, ap: seq<CellPtr>, f: seq<Blk>, nFree: int)
    requires PageOk(u, ap, f, nFree) && Linked(u, ap, |ap| + 1)
    ensures Walk(u, u[FIRST_CELL], Reachable(ap, 0))
    ensures WellFormed(u, Reachable(ap, 0)) <==> forall i | 0 <= i < |ap| :: ap[i].off <= LAST_CELL
    ensures WellFormed(u, Reachable(ap, 0)) ==>
      Pointers(Reachable(ap, 0)) == ap && FreeSum(u, u[FIRST_FREE]) == Some(nFree)
  {
    assert u[CellLink(ap, 0)] == OffsetAt(ap, 0);
    WalkBack(u, ap, f, nFree, 0);
    ReachableAll(ap, 0);
    FreeBack(u, f, 0);
    assert f[0..] == f && Extents(u, ap)[0..] == Extents(u, ap);
  }

  /** Cells of 16 bytes and more are never too near the end. */
  lemma BigCellsFit(u: seq<Word>, ap: seq<CellPtr>, f: seq<Blk>, nFree: int)
    requires PageOk(u, ap, f, nFree) && forall i | 0 <= i < |ap| :: Extents(u, ap)[i].size >= 16
    ensures forall i | 0 <= i < |ap| :: ap[i].off <= LAST_CELL
  {
    forall i | 0 <= i < |ap| ensures ap[i].off <= LAST_CELL {
      assert Aligned(Extents(u, ap)[i]);
    }
  }
}

/** The words of a page: the chained free blocks and the cells, and what writing a block changes. */
module PageMemory {
  import opened FileFormat
  import opened PageTiles

  /** A 16-bit word; byte offsets on a page are even, and word i holds bytes 2 i and 2 i + 1. */
  type Word = x: int | 0 <= x < 65536

  const WORDS := 512
  const FIRST_CELL := 2
  const FIRST_FREE := 3

  // ---------------------------------------------------------------- free blocks

  function StartOf(f: seq<Blk>, i: nat): int {
    if i < |f| then f[i].start else 0
  }

  /** The word that holds the offset of free block i: the header's, or the previous block's. */
  function LinkWord(f: seq<Blk>, i: nat): int
    requires i <= |f|
  {
    if i == 0 then FIRST_FREE else f[i - 1].start / 2 + 1
  }

  ghost predicate BlockAt(u: seq<Word>, f: seq<Blk>, i: nat)
    requires i < |f|
  {
    var w := f[i].start / 2;
    0 <= w && w + 1 < |u| && u[w] == f[i].size && u[w + 1] == StartOf(f, i + 1)
  }

  /** The chain of free blocks in the page's words is f. */
  ghost predicate FreeList(u: seq<Word>, f: seq<Blk>) {
    |u| == WORDS && u[FIRST_FREE] == StartOf(f, 0) && forall i | 0 <= i < |f| :: BlockAt(u, f, i)
  }

  lemma LinkHolds(u: seq<Word>, f: seq<Blk>, i: nat)
    requires FreeList(u, f) && i <= |f|
    ensures 0 <= LinkWord(f, i) < |u| && u[LinkWord(f, i)] == StartOf(f, i)
  {
    if i > 0 { assert BlockAt(u, f, i - 1); }
  }

  /** Word i becomes x. */
  function Put(u: seq<Word>, i: int, x: int): (v: seq<Word>)
    ensures |v| == |u|
  {
    if 0 <= i < |u| && 0 <= x < 65536 then u[i := x] else u
  }

  /** The words after taking n bytes from the front of block k. */
  function TakenWords(u: seq<Word>, f: seq<Blk>, k: nat, n: int): (v: seq<Word>)
    requires k < |f|
    ensures |v| == |u|
  {
    var rest := f[k].start + n;
    if f[k].size == n then Put(u, LinkWord(f, k), StartOf(f, k + 1))
    else Put(Put(Put(u, rest / 2 + 1, StartOf(f, k + 1)), rest / 2, f[k].size - n), LinkWord(f, k), rest)
  }

  /** A block in words: where it starts, and that it has room for its header. */
  lemma Halves(b: Blk)
    requires Aligned(b)
    ensures b.start == 2 * (b.start / 2) && b.size == 2 * (b.size / 2) && b.size / 2 >= 2
    ensures 4 <= b.start / 2 && b.start / 2 + b.size / 2 <= WORDS
  {}

  /** Two free blocks, and the header, lie in different words. */
  lemma BlocksApart(f: seq<Blk>, i: nat, j: nat)
    requires AllAligned(f) && Spaced(f) && i < j < |f|
    ensures f[i].start / 2 + 1 < f[j].start / 2
  {
    assert Aligned(f[i]) && Aligned(f[j]);
    Halves(f[i]);
    Halves(f[j]);
  }

  /** A block whose words were not written is still there, under its new number. */
  lemma BlockKept(u: seq<Word>, v: seq<Word>, f: seq<Blk>, i: nat, t: seq<Blk>, j: nat)
    requires i < |f| && BlockAt(u, f, i) && j < |t| && t[j] == f[i] && StartOf(t, j + 1) == StartOf(f, i + 1) && |v| == |u|
    requires v[f[i].start / 2] == u[f[i].start / 2] && v[f[i].start / 2 + 1] == u[f[i].start / 2 + 1]
    ensures BlockAt(v, t, j)
  {}

  lemma TakenList(u: seq<Word>, f: seq<Blk>, k: nat, n: int)
    requires FreeList(u, f) && AllAligned(f) && Spaced(f) && k < |f| && 0 < n <= f[k].size && n % 4 == 0
    ensures FreeList(TakenWords(u, f, k, n), Taken(f, k, n))
  {
    forall i | 0 <= i < |Taken(f, k, n)| ensures BlockAt(TakenWords(u, f, k, n), Taken(f, k, n), i) {
      TakenBlock(u, f, k, n, i);
    }
    TakenHead(u, f, k, n);
  }

  lemma TakenHead(u: seq<Word>, f: seq<Blk>, k: nat, n: int)
    requires FreeList(u, f) && AllAligned(f) && Spaced(f) && k < |f| && 0 < n <= f[k].size && n % 4 == 0
    ensures TakenWords(u, f, k, n)[FIRST_FREE] == StartOf(Taken(f, k, n), 0)
  {
    assert Aligned(f[k]);
    Halves(f[k]);
    if k > 0 { assert Aligned(f[k - 1]); Halves(f[k - 1]); }
    if k + 1 < |f| { assert Aligned(f[k + 1]); }
  }

  lemma TakenBlock(u: seq<Word>, f: seq<Blk>, k: nat, n: int, i: nat)
    requires FreeList(u, f) && AllAligned(f) && Spaced(f) && k < |f| && 0 < n <= f[k].size && n % 4 == 0
    requires i < |Taken(f, k, n)|
    ensures BlockAt(TakenWords(u, f, k, n), Taken(f, k, n), i)
  {
    assert Aligned(f[k]);
    if i < k - 1 {
      assert BlockAt(u, f, i);
      BlocksApart(f, i, k);
      BlocksApart(f, i, k - 1);
      BlockKept(u, TakenWords(u, f, k, n), f, i, Taken(f, k, n), i);
    } else if i == k - 1 {
      TakenBefore(u, f, k, n);
    } else if i == k && f[k].size > n {
      TakenPart(u, f, k, n);
    } else {
      TakenAfter(u, f, k, n, i);
    }
  }

  /** The block before the one taken is linked on. */
  lemma TakenBefore(u: seq<Word>, f: seq<Blk>, k: nat, n: int)
    requires FreeList(u, f) && AllAligned(f) && Spaced(f) && 0 < k < |f| && 0 < n <= f[k].size && n % 4 == 0
    ensures BlockAt(TakenWords(u, f, k, n), Taken(f, k, n), k - 1)
  {
    assert BlockAt(u, f, k - 1) && Aligned(f[k]);
    BlocksApart(f, k - 1, k);
    if k + 1 < |f| { assert Aligned(f[k + 1]); }
  }

  /** The rest of the block taken from. */
  lemma TakenPart(u: seq<Word>, f: seq<Blk>, k: nat, n: int)
    requires FreeList(u, f) && AllAligned(f) && Spaced(f) && k < |f| && 0 < n < f[k].size && n % 4 == 0
    ensures BlockAt(TakenWords(u, f, k, n), Taken(f, k, n), k)
  {
    assert Aligned(f[k]);
    Halves(f[k]);
    if k > 0 { BlocksApart(f, k - 1, k); }
    if k + 1 < |f| { assert Aligned(f[k + 1]); }
  }

  lemma TakenAfter(u: seq<Word>, f: seq<Blk>, k: nat, n: int, i: nat)
    requires FreeList(u, f) && AllAligned(f) && Spaced(f) && k < |f| && 0 < n <= f[k].size && n % 4 == 0
    requires k <= i < |Taken(f, k, n)| && (i == k ==> f[k].size == n)
    ensures BlockAt(TakenWords(u, f, k, n), Taken(f, k, n), i)
  {
    var j := if f[k].size == n then i + 1 else i;
    assert BlockAt(u, f, j);
    assert Aligned(f[k]) && Aligned(f[j]);
    RestBefore(f[k], n, f[j]);
    if k > 0 { BlocksApart(f, k - 1, j); assert Aligned(f[k - 1]); }
    var w := f[j].start / 2;
    TakenElsewhere(u, f, k, n, w);
    TakenElsewhere(u, f, k, n, w + 1);
    BlockKept(u, TakenWords(u, f, k, n), f, j, Taken(f, k, n), i);
  }

  /** Words beyond the rest of the block are not written. */
  lemma TakenElsewhere(u: seq<Word>, f: seq<Blk>, k: nat, n: int, w: int)
    requires k < |f| && 0 <= w < |u| && LinkWord(f, k) < w && (f[k].size != n ==> (f[k].start + n) / 2 + 1 < w)
    ensures TakenWords(u, f, k, n)[w] == u[w]
  {}

  lemma RestBefore(b: Blk, n: int, c: Blk)
    requires Aligned(b) && Aligned(c) && b.start + b.size < c.start && 0 < n <= b.size && n % 4 == 0
    ensures n < b.size ==> (b.start + n) / 2 + 1 < c.start / 2
    ensures FIRST_FREE < c.start / 2
  {}

  // ---------------------------------------------------------------- cells

  /** Bytes of a cell, from the key and data sizes in its header. */
  function SizeOf(w: seq<Word>): (n: nat)
    requires |w| >= 6
    ensures n % 4 == 0 && CELL_HDR <= n <= CELL_HDR + 240
  {
    var nKey: int, nData: int, hi: int := w[2], w[5], w[4];
    CellBytes((nKey + hi % 256 * 65536) + (nData + hi / 256 * 65536))
  }

  predicate CellPlace(off: int) {
    off % 4 == 0 && PAGE_HDR <= off && off + CELL_HDR <= SQLITE_USABLE_SIZE
  }

  function Extent(u: seq<Word>, off: int): Blk
    requires |u| == WORDS && CellPlace(off)
  {
    Blk(off, SizeOf(u[off / 2..off / 2 + 6]))
  }

  function Chunk(u: seq<Word>, b: Blk): seq<Word>
    requires |u| == WORDS && 0 <= b.start && 0 <= b.size && b.start + b.size <= SQLITE_USABLE_SIZE
  {
    u[b.start / 2..(b.start + b.size) / 2]
  }

  /** The words of two pages agree on a stretch. */
  ghost predicate SameWords(u: seq<Word>, v: seq<Word>, b: Blk)
    requires |u| == WORDS && |v| == WORDS
  {
    forall w | 0 <= w < WORDS && b.start / 2 <= w < (b.start + b.size) / 2 :: v[w] == u[w]
  }

  lemma SameCell(u: seq<Word>, v: seq<Word>, off: int)
    requires |u| == WORDS && |v| == WORDS && CellPlace(off) && SameWords(u, v, Extent(u, off)) && Aligned(Extent(u, off))
    ensures Extent(v, off) == Extent(u, off) && Chunk(v, Extent(u, off)) == Chunk(u, Extent(u, off))
  {
    assert v[off / 2..off / 2 + 6] == u[off / 2..off / 2 + 6];
  }

  /** Only words of block k, or of the link to it, are written. */
  lemma TakenOutside(u: seq<Word>, f: seq<Blk>, k: nat, n: int, c: Blk)
    requires |u| == WORDS && AllAligned(f) && k < |f| && 0 < n <= f[k].size && n % 4 == 0
    requires Aligned(c) && forall i | 0 <= i < |f| :: Disjoint(f[i], c)
    ensures SameWords(u, TakenWords(u, f, k, n), c)
  {
    assert Aligned(f[k]) && Disjoint(f[k], c);
    if k > 0 { assert Aligned(f[k - 1]) && Disjoint(f[k - 1], c); }
  }

  // ---------------------------------------------------------------- giving back

  /** The words after the stretch b, before free block p, was given back. */
  function FreedWords(u: seq<Word>, f: seq<Blk>, p: nat, b: Blk): (v: seq<Word>)
    requires p <= |f|
    ensures |v| == |u|
  {
    var j := Joined(f, p, b);
    var w := Put(Put(u, j.start / 2, j.size), j.start / 2 + 1, StartOf(f, Hi(f, p, b)));
    if JoinsBefore(f, p, b) then w else Put(w, LinkWord(f, p), b.start)
  }

  lemma FreedList(u: seq<Word>, f: seq<Blk>, p: nat, b: Blk)
    requires FreeList(u, f) && AllAligned(f) && Spaced(f) && p <= |f| && Aligned(b) && Place(f, p, b)
    ensures FreeList(FreedWords(u, f, p, b), Freed(f, p, b))
  {
    var t, v := Freed(f, p, b), FreedWords(u, f, p, b);
    FreedAligned(f, p, b);
    FreedSpaced(f, p, b);
    forall i | 0 <= i < |t| ensures BlockAt(v, t, i) {
      FreedBlock(u, f, p, b, i);
    }
    FreedHead(u, f, p, b);
  }

  lemma FreedHead(u: seq<Word>, f: seq<Blk>, p: nat, b: Blk)
    requires FreeList(u, f) && AllAligned(f) && Spaced(f) && p <= |f| && Aligned(b) && Place(f, p, b)
    ensures FreedWords(u, f, p, b)[FIRST_FREE] == StartOf(Freed(f, p, b), 0)
  {
    FreedAt(f, p, b, 0);
    FreedAligned(f, p, b);
    FreedAt(f, p, b, Lo(f, p, b));
    assert Aligned(Freed(f, p, b)[Lo(f, p, b)]);
    if p > 0 { assert Aligned(f[p - 1]); Halves(f[p - 1]); }
    Halves(Joined(f, p, b));
  }

  lemma FreedBlock(u: seq<Word>, f: seq<Blk>, p: nat, b: Blk, i: nat)
    requires FreeList(u, f) && AllAligned(f) && Spaced(f) && p <= |f| && Aligned(b) && Place(f, p, b)
    requires AllAligned(Freed(f, p, b)) && Spaced(Freed(f, p, b)) && i < |Freed(f, p, b)|
    ensures BlockAt(FreedWords(u, f, p, b), Freed(f, p, b), i)
  {
    FreedAt(f, p, b, i);
    FreedAt(f, p, b, Lo(f, p, b));
    if i + 1 < |Freed(f, p, b)| { FreedAt(f, p, b, i + 1); }
    if i < Lo(f, p, b) {
      FreedBefore(u, f, p, b, i);
    } else if i > Lo(f, p, b) {
      FreedAfter(u, f, p, b, i);
    } else {
      FreedHere(u, f, p, b);
    }
  }

  lemma FreedBefore(u: seq<Word>, f: seq<Blk>, p: nat, b: Blk, i: nat)
    requires FreeList(u, f) && AllAligned(f) && Spaced(f) && p <= |f| && Aligned(b) && Place(f, p, b) && i < Lo(f, p, b)
    requires var t := Freed(f, p, b); AllAligned(t) && Spaced(t) && i + 1 < |t| && t[i] == f[i]
    requires Freed(f, p, b)[Lo(f, p, b)] == Joined(f, p, b)
    requires i + 1 < Lo(f, p, b) ==> Freed(f, p, b)[i + 1] == f[i + 1]
    ensures BlockAt(FreedWords(u, f, p, b), Freed(f, p, b), i)
  {
    var t, lo := Freed(f, p, b), Lo(f, p, b);
    assert BlockAt(u, f, i);
    assert Aligned(t[lo]);
    BlocksApart(t, i, lo);
    if i + 1 < lo {
      BlocksApart(f, i, lo - 1);
      BlockKept(u, FreedWords(u, f, p, b), f, i, t, i);
    }
  }

  lemma FreedAfter(u: seq<Word>, f: seq<Blk>, p: nat, b: Blk, i: nat)
    requires FreeList(u, f) && AllAligned(f) && Spaced(f) && p <= |f| && Aligned(b) && Place(f, p, b)
    requires var t, lo, hi := Freed(f, p, b), Lo(f, p, b), Hi(f, p, b);
      && AllAligned(t) && Spaced(t) && lo < i < |t| && t[lo] == Joined(f, p, b) && t[i] == f[i - lo - 1 + hi]
      && (i + 1 < |t| ==> t[i + 1] == f[i - lo + hi])
    ensures BlockAt(FreedWords(u, f, p, b), Freed(f, p, b), i)
  {
    var t, lo := Freed(f, p, b), Lo(f, p, b);
    var j := i - lo - 1 + Hi(f, p, b);
    FreedLength(f, p, b);
    assert BlockAt(u, f, j) && Aligned(f[j]);
    BlocksApart(t, lo, i);
    if p > 0 { BlocksApart(f, p - 1, j); }
    FreedBlockKept(u, f, p, b, j);
    BlockKept(u, FreedWords(u, f, p, b), f, j, t, i);
  }

  lemma FreedBlockKept(u: seq<Word>, f: seq<Blk>, p: nat, b: Blk, j: nat)
    requires |u| == WORDS && p <= j < |f| && Aligned(f[j])
    requires LinkWord(f, p) < f[j].start / 2 && Joined(f, p, b).start / 2 + 1 < f[j].start / 2
    ensures var v, w := FreedWords(u, f, p, b), f[j].start / 2; v[w] == u[w] && v[w + 1] == u[w + 1]
  {
    Halves(f[j]);
    FreedElsewhere(u, f, p, b, f[j].start / 2);
    FreedElsewhere(u, f, p, b, f[j].start / 2 + 1);
  }

  lemma FreedElsewhere(u: seq<Word>, f: seq<Blk>, p: nat, b: Blk, w: int)
    requires p <= |f| && 0 <= w < |u| && LinkWord(f, p) < w && Joined(f, p, b).start / 2 + 1 < w
    ensures FreedWords(u, f, p, b)[w] == u[w]
  {}

  lemma FreedLength(f: seq<Blk>, p: nat, b: Blk)
    requires p <= |f|
    ensures |Freed(f, p, b)| == Lo(f, p, b) + 1 + (|f| - Hi(f, p, b))
  {}

  lemma FreedHere(u: seq<Word>, f: seq<Blk>, p: nat, b: Blk)
    requires FreeList(u, f) && AllAligned(f) && Spaced(f) && p <= |f| && Aligned(b) && Place(f, p, b)
    requires var t, lo := Freed(f, p, b), Lo(f, p, b);
      && AllAligned(t) && lo < |t| && t[lo] == Joined(f, p, b) && (lo + 1 < |t| ==> t[lo + 1] == f[Hi(f, p, b)])
    ensures BlockAt(FreedWords(u, f, p, b), Freed(f, p, b), Lo(f, p, b))
  {
    var t, lo := Freed(f, p, b), Lo(f, p, b);
    FreedLength(f, p, b);
    assert Aligned(t[lo]);
    Halves(t[lo]);
    if p > 0 { assert Aligned(f[p - 1]); Halves(f[p - 1]); }
    if Hi(f, p, b) < |f| { assert Aligned(f[Hi(f, p, b)]); }
    Halves(b);
  }

  lemma FreedOutside(u: seq<Word>, f: seq<Blk>, p: nat, b: Blk, c: Blk)
    requires |u| == WORDS && AllAligned(f) && p <= |f| && Aligned(b) && Place(f, p, b)
    requires Aligned(c) && Disjoint(b, c) && forall i | 0 <= i < |f| :: Disjoint(f[i], c)
    ensures SameWords(u, FreedWords(u, f, p, b), c)
  {
    var v := FreedWords(u, f, p, b);
    forall w | 0 <= w < WORDS && c.start / 2 <= w < (c.start + c.size) / 2 ensures v[w] == u[w] {
      JoinedOutside(f, p, b, c, w);
      LinkOutside(f, p, c, w);
    }
  }

  lemma LinkOutside(f: seq<Blk>, p: nat, c: Blk, w: int)
    requires AllAligned(f) && p <= |f| && Aligned(c) && c.start / 2 <= w < (c.start + c.size) / 2
    requires forall i | 0 <= i < |f| :: Disjoint(f[i], c)
    ensures w != LinkWord(f, p)
  {
    Halves(c);
    if p > 0 {
      assert Aligned(f[p - 1]) && Disjoint(f[p - 1], c);
      Halves(f[p - 1]);
    }
  }

  lemma JoinedOutside(f: seq<Blk>, p: nat, b: Blk, c: Blk, w: int)
    requires AllAligned(f) && p <= |f| && Aligned(b) && Aligned(c) && c.start / 2 <= w < (c.start + c.size) / 2
    requires Disjoint(b, c) && forall i | 0 <= i < |f| :: Disjoint(f[i], c)
    ensures w != Joined(f, p, b).start / 2 && w != Joined(f, p, b).start / 2 + 1
  {
    Halves(b);
    Halves(c);
    if p > 0 {
      assert Aligned(f[p - 1]) && Disjoint(f[p - 1], c);
      Halves(f[p - 1]);
    }
  }
}

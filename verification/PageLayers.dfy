/** The two views of a page: bytes with pointers into them, and the sequence of cells that balance and the cursor work on. */
module PageLayers {
  import opened FileFormat
  import opened PageTiles
  import opened PageMemory
  import opened PageCells
  import opened PageInit
  import PageSpace
  import opened BtreeSound
  import BtreeShape
  import BalanceSplit

  type Cell = BtreeShape.Cell

  /** What a cell's words, its link apart, say: the child before it and its entry, of which overflow pages hold the rest. */
  type Reader = seq<Word> -> Cell

  /** The words of a cell, wherever it is, its link apart. */
  ghost function WordsOf(u: seq<Word>, p: CellPtr): seq<Word> {
    match p
    case OffPage(words) => Masked(words)
    case OnPage(off) =>
      if |u| == WORDS && CellPlace(off) && Aligned(Extent(u, off)) then Content(u, Extent(u, off)) else []
  }

  /** The pointers lead to words that read as these cells, in their order, each as long as its entry makes it. */
  ghost predicate Shows(u: seq<Word>, ap: seq<CellPtr>, d: Reader, cells: seq<Cell>) {
    |ap| == |cells| && forall i | 0 <= i < |ap| :: ShowsAt(u, ap, d, cells, i)
  }

  ghost predicate ShowsAt(u: seq<Word>, ap: seq<CellPtr>, d: Reader, cells: seq<Cell>, i: nat)
    requires i < |ap| && i < |cells|
  {
    IsCell(WordsOf(u, ap[i]), d, cells[i])
  }

  ghost predicate IsCell(w: seq<Word>, d: Reader, x: Cell) {
    d(w) == x && 2 * |w| == CellSize(x.item)
  }

  /** On a page in order: the page's own cells are these. */
  lemma ShowsPage(u: seq<Word>, ap: seq<CellPtr>, f: seq<Blk>, nFree: int, s: seq<seq<Word>>, d: Reader, cells: seq<Cell>)
    requires PageHolds(u, ap, f, nFree, s)
    ensures Shows(u, ap, d, cells) <==> |s| == |cells| && forall i | 0 <= i < |s| :: IsCell(s[i], d, cells[i])
  {
    forall i | 0 <= i < |ap| ensures WordsOf(u, ap[i]) == s[i] {
      assert Aligned(Extents(u, ap)[i]);
    }
    if |s| == |cells| && forall i | 0 <= i < |s| :: IsCell(s[i], d, cells[i]) {
      forall i | 0 <= i < |ap| ensures ShowsAt(u, ap, d, cells, i) {}
    }
    if Shows(u, ap, d, cells) {
      forall i | 0 <= i < |s| ensures IsCell(s[i], d, cells[i]) {
        assert ShowsAt(u, ap, d, cells, i);
      }
    }
  }

  /** Stretches as long as the cells take as many bytes. */
  lemma {:induction false} SameBytes(c: seq<Blk>, cells: seq<Cell>)
    requires |c| == |cells| && forall i | 0 <= i < |c| :: c[i].size == CellSize(cells[i].item)
    ensures TotalSize(c) == PageBytes(cells)
    decreases |c|
  {
    if c != [] {
      var n := |c| - 1;
      assert c == c[..n] + [c[n]];
      SumConcat(c[..n], [c[n]]);
      assert [c[n]][1..] == [];
      SameBytes(c[..n], cells[..n]);
      PrefixSum(Sizes(cells), Sizes(cells[..n]), n);
    }
  }

  /** What is free on a page is what its cells leave: whether a cell fits can be told from the sequence alone. */
  lemma FreeIsRest(u: seq<Word>, ap: seq<CellPtr>, f: seq<Blk>, nFree: int, d: Reader, cells: seq<Cell>)
    requires PageOk(u, ap, f, nFree) && Shows(u, ap, d, cells)
    ensures nFree == USABLE_SPACE - PageBytes(cells)
  {
    forall i | 0 <= i < |ap| ensures Extents(u, ap)[i].size == CellSize(cells[i].item) {
      SameSize(u, ap, f, nFree, d, cells, i);
    }
    SameBytes(Extents(u, ap), cells);
  }

  lemma SameSize(u: seq<Word>, ap: seq<CellPtr>, f: seq<Blk>, nFree: int, d: Reader, cells: seq<Cell>, i: nat)
    requires PageOk(u, ap, f, nFree) && Shows(u, ap, d, cells) && i < |ap|
    ensures Extents(u, ap)[i].size == CellSize(cells[i].item)
  {
    assert ShowsAt(u, ap, d, cells, i) && Aligned(Extents(u, ap)[i]);
    Halves(Extents(u, ap)[i]);
  }

  function Inserted(cells: seq<Cell>, i: nat, x: Cell): seq<Cell>
    requires i <= |cells|
  {
    cells[..i] + [x] + cells[i..]
  }

  lemma InsertedBytes(cells: seq<Cell>, i: nat, x: Cell)
    requires i <= |cells|
    ensures PageBytes(Inserted(cells, i, x)) == PageBytes(cells) + CellSize(x.item)
  {
    BytesConcat(cells[..i] + [x], cells[i..]);
    BytesConcat(cells[..i], [x]);
    BytesConcat(cells[..i], cells[i..]);
    assert cells[..i] + cells[i..] == cells;
    assert PageBytes([x]) == CellSize(x.item) by { BalanceSplit.SumOne(Sizes([x]), 0); }
  }

  lemma InsertedWords(s: seq<seq<Word>>, i: nat, w: seq<Word>, d: Reader, cells: seq<Cell>, x: Cell)
    requires |s| == |cells| && i <= |s| && IsCell(w, d, x) && forall k | 0 <= k < |s| :: IsCell(s[k], d, cells[k])
    ensures var t, r := s[..i] + [w] + s[i..], Inserted(cells, i, x);
      |t| == |r| && forall k | 0 <= k < |t| :: IsCell(t[k], d, r[k])
  {
    var t, r := s[..i] + [w] + s[i..], Inserted(cells, i, x);
    forall k | 0 <= k < |t| ensures IsCell(t[k], d, r[k]) {
      if k != i { assert IsCell(s[if k < i then k else k - 1], d, cells[if k < i then k else k - 1]); }
    }
  }

  lemma InsertedPointer(u: seq<Word>, ap: seq<CellPtr>, i: nat, w: seq<Word>, d: Reader, cells: seq<Cell>, x: Cell)
    requires Shows(u, ap, d, cells) && i <= |ap| && IsCell(Masked(w), d, x)
    ensures Shows(u, ap[..i] + [OffPage(w)] + ap[i..], d, Inserted(cells, i, x))
  {
    var t, r := ap[..i] + [OffPage(w)] + ap[i..], Inserted(cells, i, x);
    forall k | 0 <= k < |t| ensures ShowsAt(u, t, d, r, k) {
      if k != i { assert ShowsAt(u, ap, d, cells, if k < i then k else k - 1); }
    }
  }

  /**
   * A cell put on a page, overfull or not, is a cell put into the sequence; the page is overfull exactly if the
   * sequence takes more than a page's bytes.
   */
  method InsertOn(page: PageSpace.MemPage, i: nat, w: seq<Word>, ghost d: Reader, ghost cells: seq<Cell>, ghost x: Cell)
    requires page.aDisk.Length == WORDS && (page.isOverfull || page.Valid()) && Shows(page.aDisk[..], page.apCell, d, cells)
    requires page.isOverfull ==> PageBytes(cells) > USABLE_SPACE
    requires i <= |page.apCell| && |w| >= 6 && SizeOf(w) == 2 * |w| && IsCell(Masked(w), d, x)
    modifies page, page.aDisk
    ensures Shows(page.aDisk[..], page.apCell, d, Inserted(cells, i, x)) && (page.isOverfull || page.Valid())
    ensures page.isOverfull <==> PageBytes(Inserted(cells, i, x)) > USABLE_SPACE
  {
    ghost var u, ap, over := page.aDisk[..], page.apCell, page.isOverfull;
    ghost var s := if over then [] else page.Cells();
    if !over {
      ShowsPage(u, ap, page.free, page.nFree, s, d, cells);
      FreeIsRest(u, ap, page.free, page.nFree, d, cells);
    }
    InsertedBytes(cells, i, x);
    page.InsertCell(i, w);
    if page.isOverfull {
      InsertedPointer(u, ap, i, w, d, cells, x);
    } else {
      InsertedWords(s, i, Masked(w), d, cells, x);
      ShowsPage(page.aDisk[..], page.apCell, page.free, page.nFree, page.Cells(), d, Inserted(cells, i, x));
    }
  }

  /** A cell dropped from a page is a cell dropped from the sequence. */
  method DropOn(page: PageSpace.MemPage, i: nat, ghost d: Reader, ghost cells: seq<Cell>)
    requires page.Valid() && Shows(page.aDisk[..], page.apCell, d, cells) && i < |cells|
    modifies page, page.aDisk
    ensures page.Valid() && Shows(page.aDisk[..], page.apCell, d, cells[..i] + cells[i + 1..])
  {
    ghost var s := page.Cells();
    ShowsPage(page.aDisk[..], page.apCell, page.free, page.nFree, s, d, cells);
    DroppedWords(s, i, d, cells);
    page.DropCell(i);
    ShowsPage(page.aDisk[..], page.apCell, page.free, page.nFree, s[..i] + s[i + 1..], d, cells[..i] + cells[i + 1..]);
  }

  lemma DroppedWords(s: seq<seq<Word>>, i: nat, d: Reader, cells: seq<Cell>)
    requires |s| == |cells| && i < |s| && forall k | 0 <= k < |s| :: IsCell(s[k], d, cells[k])
    ensures var t, r := s[..i] + s[i + 1..], cells[..i] + cells[i + 1..];
      |t| == |r| && forall k | 0 <= k < |t| :: IsCell(t[k], d, r[k])
  {
    var t, r := s[..i] + s[i + 1..], cells[..i] + cells[i + 1..];
    forall k | 0 <= k < |t| ensures IsCell(t[k], d, r[k]) {
      assert IsCell(s[if k < i then k else k + 1], d, cells[if k < i then k else k + 1]);
    }
  }

  /** The chain of cells rebuilt, the page written and read back: the same cells, and the same free bytes. */
  method ThroughTheFile(page: PageSpace.MemPage, ghost d: Reader, ghost cells: seq<Cell>) returns (ok: bool)
    requires page.Valid() && Shows(page.aDisk[..], page.apCell, d, cells)
    modifies page, page.aDisk
    ensures ok && page.Valid() && Shows(page.aDisk[..], page.apCell, d, cells)
    ensures page.apCell == old(page.apCell) && page.nFree == old(page.nFree) == USABLE_SPACE - PageBytes(cells)
  {
    ghost var s := page.Cells();
    ShowsPage(page.aDisk[..], page.apCell, page.free, page.nFree, s, d, cells);
    page.RelinkCellList();
    ShowsPage(page.aDisk[..], page.apCell, page.free, page.nFree, s, d, cells);
    FreeIsRest(page.aDisk[..], page.apCell, page.free, page.nFree, d, cells);
    CellsAreBig(page.aDisk[..], page.apCell, page.free, page.nFree, d, cells);
    ok := page.ReadBack();
  }

  /** Entries have a key of one byte or more, so no cell is too near the end of its page to be read back. */
  lemma CellsAreBig(u: seq<Word>, ap: seq<CellPtr>, f: seq<Blk>, nFree: int, d: Reader, cells: seq<Cell>)
    requires PageOk(u, ap, f, nFree) && Shows(u, ap, d, cells)
    ensures forall i | 0 <= i < |ap| :: ap[i].off <= LAST_CELL
  {
    forall i | 0 <= i < |ap| ensures Extents(u, ap)[i].size >= 16 {
      SameSize(u, ap, f, nFree, d, cells, i);
      CellSizeRange(cells[i].item);
    }
    BigCellsFit(u, ap, f, nFree);
  }

  /** Some cells' words, as balance gathers them. */
  ghost predicate AreCells(ws: seq<seq<Word>>, d: Reader, cells: seq<Cell>) {
    |ws| == |cells| && forall k | 0 <= k < |ws| :: |ws[k]| >= 6 && SizeOf(ws[k]) == 2 * |ws[k]| && IsCell(Masked(ws[k]), d, cells[k])
  }

  lemma PrefixBytes(cells: seq<Cell>, j: nat)
    requires j < |cells|
    ensures Inserted(cells[..j], j, cells[j]) == cells[..j + 1] && PageBytes(cells[..j + 1]) <= PageBytes(cells)
  {
    SliceBytes(cells, 0, j + 1);
    SizesRange(cells);
    BalanceSplit.SumSplit(Sizes(cells), 0, j + 1, |cells|);
    BalanceSplit.SumBounds(Sizes(cells), j + 1, |cells|);
    assert cells[0..j + 1] == cells[..j + 1];
  }

  /** A blank page takes any row of cells that has no more than a page's bytes, and is never overfull on the way. */
  method FillOn(page: PageSpace.MemPage, ws: seq<seq<Word>>, ghost d: Reader, ghost cells: seq<Cell>)
    requires page.Valid() && page.apCell == [] && AreCells(ws, d, cells) && PageBytes(cells) <= USABLE_SPACE
    modifies page, page.aDisk
    ensures page.Valid() && Shows(page.aDisk[..], page.apCell, d, cells)
  {
    var j := 0;
    while j < |ws|
      invariant 0 <= j <= |ws| && page.Valid() && Shows(page.aDisk[..], page.apCell, d, cells[..j])
    {
      PrefixBytes(cells, j);
      InsertOn(page, j, ws[j], d, cells[..j], cells[j]);
      j := j + 1;
    }
    assert cells[..j] == cells;
  }
}

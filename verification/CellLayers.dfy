/** Two views of a cell's key: a whole byte string, and bytes spread over the cell and its overflow chain. */
module CellLayers {
  import opened Bytes
  import opened CellPayload
  import opened PayloadReads
  import opened Overflow
  import BtreeCursor
  import BtreeShape

  /** The cell and its chain hold this entry. */
  ghost predicate HoldsEntry(db: Database, cell: Cell, x: BtreeShape.Payload, chain: seq<nat>)
    reads db
  {
    Filled(db.pages, cell, x.key, x.data, chain) && |x.key| < 0x100_0000
  }

  /** The stored key takes part with all its bytes. */
  lemma WholeKey(cell: Cell, key: Blob, data: Blob)
    requires key != [] && |key| < 0x100_0000 && cell.h == HeaderFor(|key|, |data|)
    ensures 0 <= NKEY(cell.h) <= |PayloadOf(key, data)| && PayloadOf(key, data)[..Compared(cell.h, 0)] == key
  {
    SizesFit(|key|, |data|);
  }

  /** The cursor's comparison of whole keys is the one made byte by byte along the overflow chain. */
  method CompareBoth(cur: BtreeCursor.BtCursor, db: Database, cell: Cell, key: Blob, ghost chain: seq<nat>)
    returns (c: int, ok: bool, result: int)
    requires cur.pPage in cur.pBt.pages && cur.idx < |cur.pBt.pages[cur.pPage].apCell|
    requires HoldsEntry(db, cell, cur.pBt.pages[cur.pPage].apCell[cur.idx].item, chain)
    ensures ok && result == c == FileKeyCompare(cur.pBt.pages[cur.pPage].apCell[cur.idx].item.key, key)
  {
    ghost var x := cur.pBt.pages[cur.pPage].apCell[cur.idx].item;
    WholeKey(cell, x.key, x.data);
    c := cur.KeyCompareAt(key);
    ok, result := db.KeyCompare(cell, key, 0, PayloadOf(x.key, x.data), chain);
  }
}

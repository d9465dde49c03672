/** Sizes in a database file (btree.c). */
module FileFormat {

  /** Pages are numbered from 1; 0 means no page. */
  type Pgno = nat

  const SQLITE_USABLE_SIZE := 1024
  /** Page number, right child and the two 16-bit heads of a page. */
  const PAGE_HDR := 8
  /** What is left for cells: SQLITE_USABLE_SIZE - PAGE_HDR. */
  const USABLE_SPACE := 1016
  const PGNO_BYTES := 4
  const CELL_HDR := 12
  /** A quarter of the usable space less cell header and overflow page number, rounded down to a multiple of 4. */
  const MX_LOCAL_PAYLOAD := 236
  /** SQLITE_USABLE_SIZE - PGNO_BYTES */
  const OVERFLOW_SIZE := 1020
  /** Entries in the aFree array of a freelist trunk: (OVERFLOW_SIZE - 4) / 4. */
  const MX_FREE := 254

  function RoundUp(n: nat): nat {
    (n + 3) / 4 * 4
  }

  /** Bytes of a cell on its page that carries n bytes of key and data. */
  function CellBytes(n: nat): nat {
    CELL_HDR + if n > MX_LOCAL_PAYLOAD then MX_LOCAL_PAYLOAD + PGNO_BYTES else RoundUp(n)
  }
}

/**
 * Where an entry's bytes are: the first 236 in its cell, the rest 1020 a page along a chain of overflow pages. Key and
 * data lie one after the other as one payload.
 */
module CellPayload {

  import opened Sequences
  import opened Bytes
  import opened FileFormat
  import opened FreePages

  /** Sizes are split into 16 low and 8 high bits. */
  datatype CellHdr = CellHdr(leftChild: Pgno, nKey: int, nKeyHi: int, nData: int, nDataHi: int)

  datatype Cell = Cell(h: CellHdr, aPayload: Blob, ovfl: Pgno)

  function NKEY(h: CellHdr): int {
    h.nKey + h.nKeyHi * 65536
  }

  function NDATA(h: CellHdr): int {
    h.nData + h.nDataHi * 65536
  }

  /** The high byte is one byte wide. */
  function HeaderFor(nKey: nat, nData: nat): CellHdr {
    CellHdr(0, nKey % 65536, nKey / 65536 % 256, nData % 65536, nData / 65536 % 256)
  }

  /** Sizes survive the header exactly when they are below 2^24. */
  lemma SizesFit(nKey: nat, nData: nat)
    ensures NKEY(HeaderFor(nKey, nData)) == nKey <==> nKey < 0x100_0000
    ensures NDATA(HeaderFor(nKey, nData)) == nData <==> nData < 0x100_0000
  {
  }

  // ---- chains

  /** The bytes of page p are those of the payload's overflow from 1020 i on. */
  ghost predicate CarriesUpTo(pages: Pages, p: Pgno, bytes: Blob, i: nat, to: nat) {
    && p in pages && pages[p].area.Payload? && |pages[p].area.aPayload| == OVERFLOW_SIZE
    && forall k :: 0 <= k < OVERFLOW_SIZE && OVERFLOW_SIZE * i + k < to && OVERFLOW_SIZE * i + k < |bytes|
         ==> pages[p].area.aPayload[k] == bytes[OVERFLOW_SIZE * i + k]
  }

  function NextIn(chain: seq<Pgno>, i: nat): Pgno {
    if i < |chain| then chain[i] else 0
  }

  /** chain starts at head and each page names the next one; where the last one leads is left open. */
  ghost predicate Linked(pages: Pages, head: Pgno, chain: seq<Pgno>) {
    && (chain != [] ==> head == chain[0])
    && (forall i :: 0 <= i < |chain| ==> chain[i] != 0 && chain[i] in pages)
    && (forall i :: 0 <= i < |chain| - 1 ==> pages[chain[i]].iNext == chain[i + 1])
  }

  ghost predicate Ended(pages: Pages, head: Pgno, chain: seq<Pgno>) {
    if chain == [] then head == 0
    else chain[|chain| - 1] in pages && pages[chain[|chain| - 1]].iNext == 0
  }

  /** The first `to` bytes of the overflow are in place. */
  ghost predicate Carried(pages: Pages, chain: seq<Pgno>, bytes: Blob, to: nat) {
    forall i :: 0 <= i < |chain| ==> CarriesUpTo(pages, chain[i], bytes, i, to)
  }

  function Overflowing(payload: Blob): Blob {
    if |payload| <= MX_LOCAL_PAYLOAD then [] else payload[MX_LOCAL_PAYLOAD..]
  }

  ghost predicate LocalUpTo(cell: Cell, payload: Blob, to: nat) {
    && |cell.aPayload| == MX_LOCAL_PAYLOAD
    && forall k :: 0 <= k < MX_LOCAL_PAYLOAD && k < to && k < |payload| ==> cell.aPayload[k] == payload[k]
  }

  /** Enough pages for the overflow and not one more. */
  predicate RightLength(chain: seq<Pgno>, n: nat) {
    OVERFLOW_SIZE * |chain| >= n > OVERFLOW_SIZE * (|chain| - 1)
  }

  /**
   * The cell and the pages of chain hold payload. A payload that fits its page has no chain, and the overflow field of
   * its cell means nothing: a cell copied into its page leaves it behind.
   */
  ghost predicate Stores(pages: Pages, cell: Cell, payload: Blob, chain: seq<Pgno>) {
    && LocalUpTo(cell, payload, |payload|)
    && if |payload| <= MX_LOCAL_PAYLOAD then chain == []
       else
         && Linked(pages, cell.ovfl, chain) && Ended(pages, cell.ovfl, chain) && Distinct(chain)
         && RightLength(chain, |payload| - MX_LOCAL_PAYLOAD)
         && Carried(pages, chain, Overflowing(payload), |payload|)
  }

  ghost predicate SamePages(pages: Pages, pages2: Pages, s: seq<Pgno>) {
    forall i :: 0 <= i < |s| && s[i] in pages ==> s[i] in pages2 && pages2[s[i]] == pages[s[i]]
  }

  /** What fillInCell stores: an empty key stores nothing at all, not even the data. */
  function PayloadOf(key: Blob, data: Blob): Blob {
    if key == [] then [] else key + data
  }

  // ---- building a chain

  /** memcpy of src to buf + at. */
  function Copied(buf: Blob, at: nat, src: Blob): Blob
    requires at + |src| <= |buf|
  {
    buf[..at] + src + buf[at + |src|..]
  }

  /** The payload area as plain bytes. What an earlier use left there is never read. */
  function Raw(area: Area): (b: Blob)
    ensures |b| == OVERFLOW_SIZE
  {
    if area.Payload? && |area.aPayload| == OVERFLOW_SIZE then area.aPayload else seq(OVERFLOW_SIZE, _ => 0)
  }

  function AsBytes(page: Page): Page {
    page.(area := Payload(Raw(page.area)))
  }

  function WithBytes(page: Page, at: nat, src: Blob): Page
    requires at + |src| <= OVERFLOW_SIZE
  {
    page.(area := Payload(Copied(Raw(page.area), at, src)))
  }

  /** The page number that will point to the next overflow page: in the cell, or in the last page so far. */
  function LinkPages(pages: Pages, last: Pgno, p: Pgno): Pages {
    if last in pages && last != 0 then pages[last := pages[last].(iNext := p)] else pages
  }

  /** chain so far, with w of the overflow's bytes in place. */
  ghost predicate Growing(pages: Pages, head: Pgno, chain: seq<Pgno>, bytes: Blob, w: nat) {
    Linked(pages, head, chain) && Distinct(chain) && Carried(pages, chain, bytes, w)
  }

  function LastOf(chain: seq<Pgno>): Pgno {
    if chain == [] then 0 else chain[|chain| - 1]
  }

  lemma GrowingFrame(pages: Pages, pages2: Pages, head: Pgno, chain: seq<Pgno>, bytes: Blob, w: nat)
    requires Growing(pages, head, chain, bytes, w) && SamePages(pages, pages2, chain)
    ensures Growing(pages2, head, chain, bytes, w)
  {
    forall i | 0 <= i < |chain| ensures CarriesUpTo(pages2, chain[i], bytes, i, w) {
      assert CarriesUpTo(pages, chain[i], bytes, i, w);
    }
  }

  /** A new page is hooked on behind the last one. */
  lemma ChainExtended(pages: Pages, head: Pgno, chain: seq<Pgno>, bytes: Blob, w: nat, p: Pgno)
    requires Growing(pages, head, chain, bytes, w) && w <= OVERFLOW_SIZE * |chain|
    requires p != 0 && p !in chain && p in pages
    ensures var pages2 := LinkPages(pages, LastOf(chain), p);
      p in pages2 && Growing(pages2[p := AsBytes(pages2[p])], if chain == [] then p else head, chain + [p], bytes, w)
  {
    var pages1 := LinkPages(pages, LastOf(chain), p);
    var pages2 := pages1[p := AsBytes(pages1[p])];
    var chain2 := chain + [p];
    forall i | 0 <= i < |chain2| ensures CarriesUpTo(pages2, chain2[i], bytes, i, w) {
      if i < |chain| { assert CarriesUpTo(pages, chain[i], bytes, i, w); }
    }
  }

  /** The next bytes go into the last page. */
  lemma ChainWritten(pages: Pages, head: Pgno, chain: seq<Pgno>, bytes: Blob, w: nat, src: Blob, at: nat)
    requires Growing(pages, head, chain, bytes, w) && chain != []
    requires w == OVERFLOW_SIZE * (|chain| - 1) + at && at + |src| <= OVERFLOW_SIZE
    requires w + |src| <= |bytes| && src == bytes[w..w + |src|]
    ensures Growing(pages[LastOf(chain) := WithBytes(pages[LastOf(chain)], at, src)], head, chain, bytes, w + |src|)
  {
    var p := LastOf(chain);
    var pages2 := pages[p := WithBytes(pages[p], at, src)];
    forall i | 0 <= i < |chain| ensures CarriesUpTo(pages2, chain[i], bytes, i, w + |src|) {
      assert CarriesUpTo(pages, chain[i], bytes, i, w);
      if i == |chain| - 1 { PageWritten(pages, p, bytes, i, w, src, at); }
    }
  }

  lemma PageWritten(pages: Pages, p: Pgno, bytes: Blob, i: nat, w: nat, src: Blob, at: nat)
    requires CarriesUpTo(pages, p, bytes, i, w)
    requires w == OVERFLOW_SIZE * i + at && at + |src| <= OVERFLOW_SIZE
    requires w + |src| <= |bytes| && src == bytes[w..w + |src|]
    ensures CarriesUpTo(pages[p := WithBytes(pages[p], at, src)], p, bytes, i, w + |src|)
  {
    var a, b := pages[p].area.aPayload, Copied(pages[p].area.aPayload, at, src);
    forall k | 0 <= k < OVERFLOW_SIZE && OVERFLOW_SIZE * i + k < w + |src| ensures b[k] == bytes[OVERFLOW_SIZE * i + k] {
      if k < at {
        assert b[k] == a[k];
      } else {
        assert b[k] == src[k - at];
      }
    }
  }

  lemma LocalWritten(cell: Cell, payload: Blob, w: nat, src: Blob)
    requires LocalUpTo(cell, payload, w) && w + |src| <= MX_LOCAL_PAYLOAD && w + |src| <= |payload|
    requires src == payload[w..w + |src|]
    ensures LocalUpTo(cell.(aPayload := Copied(cell.aPayload, w, src)), payload, w + |src|)
  {
    var b := Copied(cell.aPayload, w, src);
    forall k | 0 <= k < w + |src| ensures b[k] == payload[k] {
      if k >= w { assert b[k] == src[k - w]; }
    }
  }

  /** The last page's next number is cleared. */
  lemma ChainEnded(pages: Pages, cell: Cell, chain: seq<Pgno>, payload: Blob)
    requires LocalUpTo(cell, payload, |payload|)
    requires Growing(pages, cell.ovfl, chain, Overflowing(payload), |Overflowing(payload)|)
    requires RightLength(chain, |Overflowing(payload)|)
    ensures Stores(LinkPages(pages, LastOf(chain), 0), if chain == [] then cell.(ovfl := 0) else cell, payload, chain)
  {
    var pages2 := LinkPages(pages, LastOf(chain), 0);
    forall i | 0 <= i < |chain| ensures CarriesUpTo(pages2, chain[i], Overflowing(payload), i, |payload|) {
      assert CarriesUpTo(pages, chain[i], Overflowing(payload), i, |Overflowing(payload)|);
    }
  }

  /** Part of what comes next in the payload comes next in the overflow too. */
  lemma PartOf(payload: Blob, w: nat, src: Blob, n: nat)
    requires w + |src| <= |payload| && src == payload[w..w + |src|] && n <= |src|
    ensures src[..n] == payload[w..w + n]
    ensures w >= MX_LOCAL_PAYLOAD && |payload| > MX_LOCAL_PAYLOAD ==>
      src[..n] == Overflowing(payload)[w - MX_LOCAL_PAYLOAD..w - MX_LOCAL_PAYLOAD + n]
  {
    assert payload[w..w + |src|][..n] == payload[w..w + n];
  }

  /** From byte w on the payload is src, then the data if it is still to come. */
  ghost predicate Rest(payload: Blob, data: Blob, w: nat, src: Blob, hasData: bool) {
    if payload == [] then src == [] && w == 0
    else
      && w <= |payload| && payload[w..] == src + (if hasData then data else [])
      && (src == [] ==> !hasData)
  }

  lemma RestStarts(key: Blob, data: Blob)
    ensures Rest(PayloadOf(key, data), data, 0, key, true)
  {}

  lemma RestEnds(payload: Blob, data: Blob, w: nat, hasData: bool)
    requires Rest(payload, data, w, [], hasData)
    ensures w == |payload|
  {}

  lemma RestComes(payload: Blob, data: Blob, w: nat, src: Blob, hasData: bool)
    requires Rest(payload, data, w, src, hasData) && src != []
    ensures w + |src| <= |payload| && src == payload[w..w + |src|]
  {
    RestGoesOn(payload, data, w, src, hasData, |src|);
    assert src[..|src|] == src;
  }

  lemma RestGoesOn(payload: Blob, data: Blob, w: nat, src: Blob, hasData: bool, n: nat)
    requires Rest(payload, data, w, src, hasData) && 0 < n <= |src|
    ensures w + n <= |payload| && src[..n] == payload[w..w + n]
    ensures if n == |src| && hasData then Rest(payload, data, w + n, data, false) else Rest(payload, data, w + n, src[n..], hasData)
  {
    var s := payload[w..];
    var rest := if hasData then data else [];
    assert s[..n] == src[..n];
    assert payload[w + n..] == s[n..];
    assert s[n..] == src[n..] + rest;
    assert n == |src| && hasData ==> src[n..] + rest == data + [];
  }

  // ---- reading

  /** Bytes that cell and chain have room for. */
  function Room(chain: seq<Pgno>): nat {
    MX_LOCAL_PAYLOAD + OVERFLOW_SIZE * |chain|
  }

  lemma LocalRead(cell: Cell, payload: Blob, offset: nat, a: nat)
    requires LocalUpTo(cell, payload, |payload|) && offset + a <= MX_LOCAL_PAYLOAD && offset + a <= |payload|
    ensures cell.aPayload[offset..offset + a] == payload[offset..offset + a]
  {
  }

  lemma PageRead(pages: Pages, payload: Blob, p: Pgno, i: nat, off: nat, a: nat)
    requires CarriesUpTo(pages, p, Overflowing(payload), i, |payload|) && off + a <= OVERFLOW_SIZE
    requires |payload| > MX_LOCAL_PAYLOAD && MX_LOCAL_PAYLOAD + OVERFLOW_SIZE * i + off + a <= |payload|
    ensures var at := MX_LOCAL_PAYLOAD + OVERFLOW_SIZE * i + off;
      pages[p].area.aPayload[off..off + a] == payload[at..at + a]
  {
    var at := MX_LOCAL_PAYLOAD + OVERFLOW_SIZE * i + off;
    var s := pages[p].area.aPayload[off..off + a];
    forall k | 0 <= k < a ensures s[k] == payload[at + k] {
      assert Overflowing(payload)[OVERFLOW_SIZE * i + (off + k)] == payload[at + k];
    }
  }

  // ---- comparing

  /** The first pos bytes of both keys agree. */
  ghost predicate Comparing(stored: Blob, key: Blob, pos: nat) {
    pos <= |stored| && pos <= |key| && MemCmp(stored, key, pos) == 0
  }

  /** n more bytes, found in buf. */
  lemma CompareOn(stored: Blob, key: Blob, pos: nat, buf: Blob, n: nat)
    requires Comparing(stored, key, pos) && pos + n <= |stored| && pos + n <= |key| && n <= |buf|
    requires buf[..n] == stored[pos..pos + n]
    ensures MemCmp(buf, key[pos..], n) == MemCmp(stored, key, pos + n)
    ensures MemCmp(buf, key[pos..], n) == 0 ==> Comparing(stored, key, pos + n)
  {
    MemCmpPieces(stored, key, pos, n);
    var s := stored[pos..];
    assert s[..n] == stored[pos..pos + n];
    MemCmpSame(buf, s, key[pos..], key[pos..], n);
  }

  /** A difference among the first pos bytes decides. */
  lemma Differs(stored: Blob, key: Blob, pos: nat)
    requires pos <= |stored| && pos <= |key| && MemCmp(stored, key, pos) != 0
    ensures FileKeyCompare(stored, key) == MemCmp(stored, key, pos)
  {
    MemCmpPieces(stored, key, pos, Min(|stored|, |key|) - pos);
  }

  /** With one key used up, the lengths decide. */
  lemma Exhausted(stored: Blob, key: Blob, pos: nat)
    requires Comparing(stored, key, pos) && (pos == |stored| || pos == |key|)
    ensures FileKeyCompare(stored, key) == |stored| - |key|
  {
  }

  /** The next bytes of a stored key are at the start of page i. */
  lemma KeyOnPage(pages: Pages, payload: Blob, chain: seq<Pgno>, i: nat, nStored: nat, n: nat)
    requires Carried(pages, chain, Overflowing(payload), |payload|) && i < |chain| && |payload| > MX_LOCAL_PAYLOAD
    requires n <= OVERFLOW_SIZE && MX_LOCAL_PAYLOAD + OVERFLOW_SIZE * i + n <= nStored <= |payload|
    ensures var at := MX_LOCAL_PAYLOAD + OVERFLOW_SIZE * i;
      && CarriesUpTo(pages, chain[i], Overflowing(payload), i, |payload|)
      && pages[chain[i]].area.aPayload[..n] == payload[..nStored][at..at + n]
  {
    assert CarriesUpTo(pages, chain[i], Overflowing(payload), i, |payload|);
    PageRead(pages, payload, chain[i], i, 0, n);
    var at := MX_LOCAL_PAYLOAD + OVERFLOW_SIZE * i;
    assert payload[..nStored][at..at + n] == payload[at..at + n];
  }
}

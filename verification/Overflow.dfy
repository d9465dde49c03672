/** Pages come and go, and payloads are written to, read from and compared on overflow chains (btree.c). */
module Overflow {

  import opened Sequences
  import opened Wrappers
  import opened Bytes
  import opened FileFormat
  import opened FreePages
  import opened CellPayload
  import opened PayloadReads

  class Database {
    var pages: Pages
    /** Pages in the file. */
    var dbSize: nat
    /** Page 1's head of the freelist and its count. */
    var freeList: Pgno
    var nFree: int
    ghost var trunks: seq<Pgno>
    ghost var inUse: set<Pgno>

    ghost predicate Valid()
      reads this
    {
      dbSize >= 1 && Accounted(pages, dbSize, freeList, nFree, trunks, inUse)
    }

    /** A file with page 1 and the root page 2. */
    constructor ()
      ensures Valid() && inUse == {2} && freeList == 0 && nFree == 0 && dbSize == 2
    {
      pages := map[2 := Page(0, Payload([]))];
      dbSize, freeList, nFree := 2, 0, 0;
      trunks, inUse := [], {2};
      new;
      assert AllPages(2) == {2};
    }

    /** Pages in use keep their contents. */
    ghost predicate Kept(before: Pages, s: set<Pgno>)
      reads this
    {
      forall p :: p in s && p in before ==> p in pages && pages[p] == before[p]
    }

    /** A page nobody uses: from the freelist if it has one, else from beyond the end of the file. */
    method AllocatePage(nearby: Pgno) returns (pgno: Pgno)
      requires Valid()
      modifies this
      ensures Valid() && pgno !in old(inUse) && pgno >= 2 && inUse == old(inUse) + {pgno} && pgno in pages
      ensures Kept(old(pages), old(inUse))
      ensures old(freeList) == 0 ==> dbSize == old(dbSize) + 1 == pgno && nFree == old(nFree)
      ensures old(freeList) != 0 ==>
        dbSize == old(dbSize) && nFree == old(nFree) - 1 && pgno == HandedOut(old(pages), old(freeList), nearby)
    {
      if freeList != 0 {
        HeadInUseNot();
        var pOvfl := pages[freeList];
        if pOvfl.area.nFree == 0 {
          TakeTrunk(pages, dbSize, freeList, nFree, trunks, inUse);
          pgno := freeList;
          freeList := pOvfl.iNext;
          trunks := trunks[1..];
        } else {
          var closest := FindClosest(pOvfl, nearby);
          TakeLeaf(pages, dbSize, freeList, nFree, trunks, inUse, closest);
          pgno := pOvfl.area.aFree[closest];
          pages := pages[freeList := WithoutLeaf(pOvfl, closest)];
        }
        nFree := nFree - 1;
      } else {
        TakeNew(pages, dbSize, nFree, inUse, Page(0, Payload([])));
        dbSize := dbSize + 1;
        pgno := dbSize;
        pages := pages[pgno := Page(0, Payload([]))];
      }
      inUse := inUse + {pgno};
    }

    lemma HeadInUseNot()
      requires Valid() && freeList != 0
      ensures trunks != [] && freeList !in inUse
    {
      TrunksAreFree(pages, freeList, trunks);
      FreeOnce(FreeBag(pages, freeList, trunks), inUse, dbSize, freeList);
    }

    /** The search for a near page: the distance it compares with is always the first entry's. */
    method FindClosest(page: Page, nearby: Pgno) returns (closest: nat)
      requires IsTrunk(page) && page.area.nFree > 0
      ensures closest == Closest(page, nearby)
    {
      closest := 0;
      var n := page.area.nFree;
      if n > 1 && nearby > 0 {
        var dist := page.area.aFree[0] - nearby;
        if dist < 0 { dist := -dist; }
        var i := 1;
        while i < n
          invariant 1 <= i <= n && closest == LastNearer(page, nearby, i)
        {
          var d2 := page.area.aFree[i] - nearby;
          if d2 < 0 { d2 := -d2; }
          if d2 < dist { closest := i; }
          i := i + 1;
        }
      }
    }

    method FreePage(pgno: Pgno)
      requires Valid() && pgno in inUse && pgno > 2
      modifies this
      ensures Valid() && inUse == old(inUse) - {pgno} && nFree == old(nFree) + 1 && dbSize == old(dbSize)
      ensures Kept(old(pages), inUse)
    {
      nFree := nFree + 1;
      if nFree != 0 && freeList != 0 {
        HeadInUseNotAfter(pgno);
        if pages[freeList].area.nFree < MX_FREE {
          ListOnTrunk(pgno);
          return;
        }
      }
      BecomeTrunk(pgno);
    }

    method ListOnTrunk(pgno: Pgno)
      requires dbSize >= 1 && Accounted(pages, dbSize, freeList, nFree - 1, trunks, inUse) && pgno in inUse
      requires trunks != [] && freeList !in inUse && pages[freeList].area.nFree < MX_FREE
      modifies this`pages, this`inUse
      ensures Valid() && inUse == old(inUse) - {pgno} && Kept(old(pages), inUse)
    {
      GiveLeaf(pages, dbSize, freeList, nFree - 1, trunks, inUse, pgno);
      var page := pages[freeList];
      pages := pages[freeList := page.(area := FreelistInfo(page.area.nFree + 1, page.area.aFree[page.area.nFree := pgno]))];
      inUse := inUse - {pgno};
    }

    method BecomeTrunk(pgno: Pgno)
      requires dbSize >= 1 && Accounted(pages, dbSize, freeList, nFree - 1, trunks, inUse) && pgno in inUse
      modifies this
      ensures Valid() && inUse == old(inUse) - {pgno} && Kept(old(pages), inUse)
      ensures nFree == old(nFree) && dbSize == old(dbSize)
    {
      GiveTrunk(pages, dbSize, freeList, nFree - 1, trunks, inUse, pgno);
      pages := pages[pgno := Page(freeList, FreelistInfo(0, Zeros()))];
      freeList := pgno;
      trunks := [pgno] + trunks;
      inUse := inUse - {pgno};
    }

    lemma HeadInUseNotAfter(pgno: Pgno)
      requires dbSize >= 1 && Accounted(pages, dbSize, freeList, nFree - 1, trunks, inUse) && freeList != 0
      ensures trunks != [] && freeList !in inUse
    {
      TrunksAreFree(pages, freeList, trunks);
      FreeOnce(FreeBag(pages, freeList, trunks), inUse, dbSize, freeList);
    }

    /** Pages of a chain go back to the freelist, and only they. */
    method ClearCell(cell: Cell, ghost payload: Blob, ghost chain: seq<Pgno>) returns (cleared: Cell)
      requires Valid() && Stores(pages, cell, payload, chain) && SizesAre(cell, payload)
      requires forall p :: p in chain ==> p in inUse && p > 2
      modifies this
      ensures Valid() && inUse == old(inUse) - Members(chain) && dbSize == old(dbSize)
      ensures nFree == old(nFree) + |chain| && Kept(old(pages), inUse)
      ensures cleared == if |payload| <= MX_LOCAL_PAYLOAD then cell else cell.(ovfl := 0)
    {
      cleared := cell;
      if NKEY(cell.h) + NDATA(cell.h) <= MX_LOCAL_PAYLOAD { return; }
      var ovfl := cell.ovfl;
      cleared := cell.(ovfl := 0);
      ghost var i := 0;
      ghost var before := pages;
      while ovfl != 0
        invariant Valid() && i <= |chain| && ovfl == NextIn(chain, i)
        invariant inUse == old(inUse) - Members(chain[..i]) && nFree == old(nFree) + i && dbSize == old(dbSize)
        invariant Kept(before, inUse)
        decreases |chain| - i
      {
        NotYetFreed(chain, i);
        assert ovfl in chain && ovfl in inUse;
        var nextOvfl := pages[ovfl].iNext;
        MembersGrow(chain, i);
        FreePage(ovfl);
        ovfl := nextOvfl;
        i := i + 1;
      }
      assert chain[..i] == chain;
    }

    method WritePage(p: Pgno, page: Page)
      requires Valid() && p in inUse
      modifies this`pages
      ensures Valid() && pages == old(pages)[p := page]
    {
      InUseWritten(pages, dbSize, freeList, nFree, trunks, inUse, p, page);
      pages := pages[p := page];
    }

    /** The chain of a cell under construction lies on pages taken since `before`. */
    ghost predicate Building(cell: Cell, chain: seq<Pgno>, bytes: Blob, w: nat, before: Pages, others: set<Pgno>)
      reads this
    {
      && Valid() && Growing(pages, cell.ovfl, chain, bytes, w)
      && inUse == others + Members(chain) && others !! Members(chain) && Kept(before, others)
    }

    /** Another overflow page, hooked on to the cell or to the last page. */
    method AddPage(cell: Cell, last: Pgno, nearby: Pgno, ghost chain: seq<Pgno>, ghost bytes: Blob, ghost w: nat,
                   ghost before: Pages, ghost others: set<Pgno>)
      returns (cell2: Cell, p: Pgno)
      requires Building(cell, chain, bytes, w, before, others) && w <= OVERFLOW_SIZE * |chain| && last == LastOf(chain)
      modifies this
      ensures Building(cell2, chain + [p], bytes, w, before, others)
      ensures cell2.h == cell.h && cell2.aPayload == cell.aPayload && p != 0
    {
      p := AllocatePage(nearby);
      GrowingFrame(old(pages), pages, cell.ovfl, chain, bytes, w);
      ChainExtended(pages, cell.ovfl, chain, bytes, w, p);
      assert Members(chain + [p]) == Members(chain) + {p};
      cell2 := cell;
      if last == 0 {
        cell2 := cell.(ovfl := p);
      } else {
        WritePage(last, pages[last].(iNext := p));
      }
      WritePage(p, AsBytes(pages[p]));
    }

    /** memcpy to the page being filled. */
    method CopyToPage(cell: Cell, last: Pgno, at: nat, src: Blob, ghost chain: seq<Pgno>, ghost bytes: Blob, ghost w: nat,
                      ghost before: Pages, ghost others: set<Pgno>)
      requires Building(cell, chain, bytes, w, before, others) && chain != [] && last == LastOf(chain)
      requires w == OVERFLOW_SIZE * (|chain| - 1) + at && at + |src| <= OVERFLOW_SIZE
      requires w + |src| <= |bytes| && src == bytes[w..w + |src|]
      modifies this`pages
      ensures Building(cell, chain, bytes, w + |src|, before, others)
    {
      ChainWritten(pages, cell.ovfl, chain, bytes, w, src, at);
      assert last in Members(chain);
      WritePage(last, WithBytes(pages[last], at, src));
    }

    /** w bytes of payload are in the cell and chain; spaceLeft more fit where the last ones went. */
    ghost predicate Filling(cell: Cell, payload: Blob, w: nat, chain: seq<Pgno>, last: Pgno, spaceLeft: int,
                            before: Pages, others: set<Pgno>)
      reads this
    {
      && LocalUpTo(cell, payload, w) && last == LastOf(chain) && spaceLeft >= 0 && (chain != [] ==> last != 0)
      && w == MX_LOCAL_PAYLOAD + OVERFLOW_SIZE * |chain| - spaceLeft
      && (chain == [] ==> spaceLeft <= MX_LOCAL_PAYLOAD)
      && (chain != [] ==> spaceLeft <= OVERFLOW_SIZE && |payload| > MX_LOCAL_PAYLOAD)
      && Building(cell, chain, Overflowing(payload), Spilled(w), before, others)
    }

    method CopyPart(cell: Cell, last: Pgno, spaceLeft: nat, part: Blob, ghost payload: Blob, ghost w: nat,
                    ghost chain: seq<Pgno>, ghost before: Pages, ghost others: set<Pgno>) returns (cell2: Cell)
      requires Filling(cell, payload, w, chain, last, spaceLeft, before, others) && |part| <= spaceLeft
      requires w + |part| <= |payload| && part == payload[w..w + |part|]
      requires w >= MX_LOCAL_PAYLOAD && |payload| > MX_LOCAL_PAYLOAD ==>
        part == Overflowing(payload)[Spilled(w)..Spilled(w) + |part|]
      modifies this`pages
      ensures Filling(cell2, payload, w + |part|, chain, last, spaceLeft - |part|, before, others) && cell2.h == cell.h
    {
      cell2 := cell;
      if last == 0 {
        LocalWritten(cell, payload, w, part);
        cell2 := cell.(aPayload := Copied(cell.aPayload, MX_LOCAL_PAYLOAD - spaceLeft, part));
      } else {
        CopyToPage(cell, last, OVERFLOW_SIZE - spaceLeft, part, chain, Overflowing(payload), Spilled(w), before, others);
      }
    }

    method NextPage(cell: Cell, last: Pgno, nearby: Pgno, ghost payload: Blob, ghost w: nat, ghost chain: seq<Pgno>,
                    ghost before: Pages, ghost others: set<Pgno>)
      returns (cell2: Cell, p: Pgno, ghost chain2: seq<Pgno>)
      requires Filling(cell, payload, w, chain, last, 0, before, others) && w < |payload|
      modifies this
      ensures Filling(cell2, payload, w, chain2, p, OVERFLOW_SIZE, before, others) && cell2.h == cell.h && p != 0
    {
      cell2, p := AddPage(cell, last, nearby, chain, Overflowing(payload), Spilled(w), before, others);
      chain2 := chain + [p];
    }

    /** payload is in the cell and on chain, whose pages are new; nothing else has changed. */
    ghost predicate Stored(cell: Cell, payload: Blob, chain: seq<Pgno>, before: Pages, others: set<Pgno>)
      reads this
    {
      && Valid() && Stores(pages, cell, payload, chain)
      && inUse == others + Members(chain) && others !! Members(chain) && Kept(before, others)
    }

    method MakeRoom(cell: Cell, last: Pgno, spaceLeft: nat, nearby: Pgno, ghost payload: Blob, ghost w: nat,
                    ghost chain: seq<Pgno>, ghost before: Pages, ghost others: set<Pgno>)
      returns (cell2: Cell, last2: Pgno, space2: nat, nearby2: Pgno, ghost chain2: seq<Pgno>)
      requires Filling(cell, payload, w, chain, last, spaceLeft, before, others) && w < |payload|
      modifies this
      ensures space2 > 0 && Filling(cell2, payload, w, chain2, last2, space2, before, others)
      ensures cell2.h == cell.h
    {
      cell2, last2, space2, nearby2, chain2 := cell, last, spaceLeft, nearby, chain;
      if space2 == 0 {
        cell2, last2, chain2 := NextPage(cell2, last2, nearby, payload, w, chain, before, others);
        nearby2 := last2;
        space2 := OVERFLOW_SIZE;
      }
    }

    /** As many bytes as fit where the last ones went. */
    method CopySome(cell: Cell, last: Pgno, spaceLeft: nat, src: Blob, ghost payload: Blob, ghost w: nat,
                    ghost chain: seq<Pgno>, ghost before: Pages, ghost others: set<Pgno>)
      returns (cell2: Cell, space2: nat, n: nat)
      requires Filling(cell, payload, w, chain, last, spaceLeft, before, others) && spaceLeft > 0
      requires src != [] && w + |src| <= |payload| && src == payload[w..w + |src|]
      modifies this`pages
      ensures 0 < n <= |src| && space2 == spaceLeft - n && Filling(cell2, payload, w + n, chain, last, space2, before, others)
      ensures cell2.h == cell.h
    {
      n := if |src| > spaceLeft then spaceLeft else |src|;
      PartOf(payload, w, src, n);
      cell2 := CopyPart(cell, last, spaceLeft, src[..n], payload, w, chain, before, others);
      space2 := spaceLeft - n;
    }

    /** One round: a page if the last one is full, then as many bytes as fit. */
    method FillOn(cell: Cell, last: Pgno, spaceLeft: nat, nearby: Pgno, src: Blob, ghost payload: Blob, ghost w: nat,
                  ghost chain: seq<Pgno>, ghost before: Pages, ghost others: set<Pgno>)
      returns (cell2: Cell, last2: Pgno, space2: nat, nearby2: Pgno, n: nat, ghost chain2: seq<Pgno>)
      requires Filling(cell, payload, w, chain, last, spaceLeft, before, others)
      requires src != [] && w + |src| <= |payload| && src == payload[w..w + |src|]
      modifies this
      ensures 0 < n <= |src| && Filling(cell2, payload, w + n, chain2, last2, space2, before, others)
      ensures cell2.h == cell.h && (chain2 != [] ==> space2 < OVERFLOW_SIZE)
    {
      cell2, last2, space2, nearby2, chain2 := MakeRoom(cell, last, spaceLeft, nearby, payload, w, chain, before, others);
      cell2, space2, n := CopySome(cell2, last2, space2, src, payload, w, chain2, before, others);
    }

    /** One round, and the source's next bytes: the key's, then the data's. */
    method FillFrom(cell: Cell, last: Pgno, spaceLeft: nat, nearby: Pgno, src: Blob, data: Blob, hasData: bool,
                    ghost payload: Blob, ghost w: nat, ghost chain: seq<Pgno>, ghost before: Pages, ghost others: set<Pgno>)
      returns (cell2: Cell, last2: Pgno, space2: nat, nearby2: Pgno, src2: Blob, hasData2: bool, ghost w2: nat, ghost chain2: seq<Pgno>)
      requires Filling(cell, payload, w, chain, last, spaceLeft, before, others) && src != []
      requires Rest(payload, data, w, src, hasData)
      modifies this
      ensures w < w2 <= |payload| && Filling(cell2, payload, w2, chain2, last2, space2, before, others)
      ensures Rest(payload, data, w2, src2, hasData2)
      ensures cell2.h == cell.h && (chain2 != [] ==> space2 < OVERFLOW_SIZE)
    {
      var n;
      RestComes(payload, data, w, src, hasData);
      cell2, last2, space2, nearby2, n, chain2 := FillOn(cell, last, spaceLeft, nearby, src, payload, w, chain, before, others);
      src2, hasData2 := NextSource(src, data, hasData, n, payload, w);
      w2 := w + n;
    }

    method NextSource(src: Blob, data: Blob, hasData: bool, n: nat, ghost payload: Blob, ghost w: nat)
      returns (src2: Blob, hasData2: bool)
      requires Rest(payload, data, w, src, hasData) && 0 < n <= |src|
      ensures w + n <= |payload| && Rest(payload, data, w + n, src2, hasData2)
    {
      RestGoesOn(payload, data, w, src, hasData, n);
      src2, hasData2 := src[n..], hasData;
      if |src2| == 0 && hasData2 {
        src2 := data;
        hasData2 := false;
      }
    }

    method EndChain(cell: Cell, last: Pgno, ghost payload: Blob, ghost chain: seq<Pgno>, ghost spaceLeft: int,
                    ghost before: Pages, ghost others: set<Pgno>) returns (cell2: Cell)
      requires Filling(cell, payload, |payload|, chain, last, spaceLeft, before, others)
      requires chain != [] ==> spaceLeft < OVERFLOW_SIZE
      modifies this`pages
      ensures Stored(cell2, payload, chain, before, others) && cell2.h == cell.h
    {
      ChainEnded(pages, cell, chain, payload);
      cell2 := cell;
      if last == 0 {
        cell2 := cell.(ovfl := 0);
      } else {
        assert last in Members(chain);
        WritePage(last, pages[last].(iNext := 0));
      }
    }

    method NewCell(nKey: nat, nData: nat, ghost payload: Blob) returns (cell: Cell)
      requires Valid()
      ensures cell.h == HeaderFor(nKey, nData)
      ensures Filling(cell, payload, 0, [], 0, MX_LOCAL_PAYLOAD, pages, inUse)
    {
      cell := Cell(HeaderFor(nKey, nData), seq(MX_LOCAL_PAYLOAD, _ => 0), 0);
      assert Members([]) == {};
    }

    /** Puts key and data into a new cell and as many new pages as they need. */
    method FillInCell(key: Blob, data: Blob) returns (cell: Cell, ghost chain: seq<Pgno>)
      requires Valid()
      modifies this
      ensures Stored(cell, PayloadOf(key, data), chain, old(pages), old(inUse))
      ensures cell.h == HeaderFor(|key|, |data|)
    {
      ghost var payload := PayloadOf(key, data);
      ghost var before, others := pages, inUse;
      cell := NewCell(|key|, |data|, payload);
      var src, hasData, spaceLeft, last, nearby := key, true, MX_LOCAL_PAYLOAD, 0, 0;
      chain := [];
      ghost var w := 0;
      RestStarts(key, data);
      while |src| > 0
        invariant Rest(payload, data, w, src, hasData) && w <= |payload|
        invariant cell.h == HeaderFor(|key|, |data|) && spaceLeft >= 0 && (chain != [] ==> spaceLeft < OVERFLOW_SIZE)
        invariant Filling(cell, payload, w, chain, last, spaceLeft, before, others)
        decreases |payload| - w
      {
        cell, last, spaceLeft, nearby, src, hasData, w, chain :=
          FillFrom(cell, last, spaceLeft, nearby, src, data, hasData, payload, w, chain, before, others);
      }
      assert src == [];
      RestEnds(payload, data, w, hasData);
      cell := EndChain(cell, last, payload, chain, spaceLeft, before, others);
    }

    /** Reads amt bytes of the payload from offset on, first from the cell and then along its chain; not ok if that ends before. */
    method GetPayload(cell: Cell, offset: nat, amt: nat) returns (ok: bool, zBuf: Blob)
      requires |cell.aPayload| == MX_LOCAL_PAYLOAD
      ensures ok <==> Fetch(pages, cell, offset, amt).Some?
      ensures ok ==> zBuf == Fetch(pages, cell, offset, amt).value
    {
      var off, left := offset, amt;
      zBuf := [];
      if off < MX_LOCAL_PAYLOAD {
        var a := left;
        if a + off > MX_LOCAL_PAYLOAD {
          a := MX_LOCAL_PAYLOAD - off;
        }
        zBuf := cell.aPayload[off..off + a];
        if a == left { return true, zBuf; }
        off := 0;
        left := left - a;
      } else {
        off := off - MX_LOCAL_PAYLOAD;
      }
      var more;
      ok, more := ReadChain(cell.ovfl, off, left);
      zBuf := zBuf + more;
    }

    method ReadChain(ovfl: Pgno, offset: nat, amt: nat) returns (ok: bool, zBuf: Blob)
      ensures ok <==> FetchFrom(pages, ovfl, offset, amt).Some?
      ensures ok ==> zBuf == FetchFrom(pages, ovfl, offset, amt).value
    {
      var nextPage: Pgno, off: nat, left: nat := ovfl, offset, amt;
      zBuf := [];
      PrefixedNone(FetchFrom(pages, ovfl, offset, amt));
      while left > 0 && nextPage != 0
        invariant FetchFrom(pages, ovfl, offset, amt) == Prefixed(zBuf, FetchFrom(pages, nextPage, off, left))
        decreases off + left
      {
        if nextPage !in pages { return false, zBuf; }
        var pOvfl := pages[nextPage];
        ghost var next := nextPage;
        nextPage := pOvfl.iNext;
        if off < OVERFLOW_SIZE {
          var a := left;
          if a + off > OVERFLOW_SIZE {
            a := OVERFLOW_SIZE - off;
          }
          PrefixedTwice(zBuf, Raw(pOvfl.area)[off..off + a], FetchFrom(pages, nextPage, 0, left - a));
          zBuf := zBuf + Raw(pOvfl.area)[off..off + a];
          off := 0;
          left := left - a;
        } else {
          off := off - OVERFLOW_SIZE;
        }
      }
      ok := left == 0;
    }

    /** Part of the key. */
    method Key(cell: Cell, offset: nat, amt: nat, ghost key: Blob, ghost data: Blob, ghost chain: seq<Pgno>)
      returns (zBuf: Blob)
      requires Stores(pages, cell, key + data, chain) && offset + amt <= |key|
      ensures zBuf == key[offset..offset + amt]
    {
      var ok;
      StoredIsFetched(pages, cell, key + data, chain, offset, amt);
      ok, zBuf := GetPayload(cell, offset, amt);
      assert (key + data)[offset..offset + amt] == key[offset..offset + amt];
    }

    /** Part of the data, which begins where the key ends. */
    method Data(cell: Cell, offset: nat, amt: nat, ghost key: Blob, ghost data: Blob, ghost chain: seq<Pgno>)
      returns (zBuf: Blob)
      requires Stores(pages, cell, key + data, chain) && offset + amt <= |data|
      requires cell.h == HeaderFor(|key|, |data|) && |key| < 0x100_0000
      ensures zBuf == data[offset..offset + amt]
    {
      SizesFit(|key|, |data|);
      var ok;
      StoredIsFetched(pages, cell, key + data, chain, offset + |key|, amt);
      ok, zBuf := GetPayload(cell, offset + NKEY(cell.h), amt);
      assert (key + data)[offset + |key|..offset + |key| + amt] == data[offset..offset + amt];
    }

    /** A cell filled in and read back: the data comes back if there is a key or no data. */
    method FillAndRead(key: Blob, data: Blob, offset: nat, amt: nat) returns (ok: bool, zBuf: Blob)
      requires Valid() && |key| < 0x100_0000 && offset + amt <= |data|
      modifies this
      ensures Valid() && (key != [] || data == [] ==> ok && zBuf == data[offset..offset + amt])
    {
      var cell := FillFor(key, data, offset, amt);
      ok, zBuf := GetPayload(cell, NKEY(cell.h) + offset, amt);
    }

    method FillFor(key: Blob, data: Blob, ghost offset: nat, ghost amt: nat) returns (cell: Cell)
      requires Valid() && |key| < 0x100_0000 && offset + amt <= |data|
      modifies this
      ensures Valid() && |cell.aPayload| == MX_LOCAL_PAYLOAD && NKEY(cell.h) == |key|
      ensures key != [] || data == [] ==> Fetch(pages, cell, |key| + offset, amt) == Some(data[offset..offset + amt])
    {
      ghost var chain;
      cell, chain := FillInCell(key, data);
      FilledRange(pages, cell, key, data, chain, offset, amt);
    }

    /** memcmp of n bytes of a buffer that holds the next bytes of the stored key. */
    method CompareBytes(buf: Blob, zKey: Blob, n: nat, ghost stored: Blob, ghost key: Blob, ghost pos: nat)
      returns (c: int)
      requires Comparing(stored, key, pos) && pos + n <= |stored| && pos + n <= |key| && n <= |buf|
      requires buf[..n] == stored[pos..pos + n] && zKey == key[pos..]
      ensures c != 0 ==> c == FileKeyCompare(stored, key)
      ensures c == 0 ==> Comparing(stored, key, pos + n) && zKey[n..] == key[pos + n..]
    {
      CompareOn(stored, key, pos, buf, n);
      c := MemCmp(buf, zKey, n);
      if c != 0 { Differs(stored, key, pos + n); }
    }

    method CompareLocal(cell: Cell, key: Blob, n: nat, ghost payload: Blob, ghost nStored: nat) returns (c: int)
      requires LocalUpTo(cell, payload, |payload|) && nStored <= |payload|
      requires n <= MX_LOCAL_PAYLOAD && n <= |key| && n <= nStored
      ensures c != 0 ==> c == FileKeyCompare(payload[..nStored], key)
      ensures c == 0 ==> Comparing(payload[..nStored], key, n)
    {
      LocalRead(cell, payload, 0, n);
      assert payload[..nStored][0..n] == payload[0..n];
      c := CompareBytes(cell.aPayload, key, n, payload[..nStored], key, 0);
    }

    /** Compares the stored key, less its last nIgnore bytes, with key. */
    method KeyCompare(cell: Cell, key: Blob, nIgnore: nat, ghost payload: Blob, ghost chain: seq<Pgno>)
      returns (ok: bool, result: int)
      requires Stores(pages, cell, payload, chain) && 0 <= NKEY(cell.h) <= |payload|
      ensures ok && result == FileKeyCompare(payload[..Compared(cell.h, nIgnore)], key)
    {
      var nLocal := NKEY(cell.h) - nIgnore;
      if nLocal < 0 { nLocal := 0; }
      var n := if |key| < nLocal then |key| else nLocal;
      if n > MX_LOCAL_PAYLOAD { n := MX_LOCAL_PAYLOAD; }
      var c := CompareLocal(cell, key, n, payload, nLocal);
      if c != 0 { return true, c; }
      ok, result := CompareRest(cell, key, n, nLocal, payload, chain);
    }

    /** The cell's bytes agree with the key's as far as they go: the chain decides, or the lengths. */
    method CompareRest(cell: Cell, key: Blob, n: nat, nLocal: nat, ghost payload: Blob, ghost chain: seq<Pgno>)
      returns (ok: bool, result: int)
      requires Stores(pages, cell, payload, chain) && nLocal <= |payload| && Comparing(payload[..nLocal], key, n)
      requires n == Min(Min(|key|, nLocal), MX_LOCAL_PAYLOAD)
      ensures ok && result == FileKeyCompare(payload[..nLocal], key)
    {
      if n < |key| && n < nLocal {
        ok, result := CompareChain(cell.ovfl, key[n..], nLocal - n, payload, chain, payload[..nLocal], key);
      } else {
        Exhausted(payload[..nLocal], key, n);
        ok, result := true, nLocal - |key|;
      }
    }

    /** Compares with what page i of the chain holds of the stored key. */
    method ComparePage(p: Pgno, zKey: Blob, nLocal: nat, ghost payload: Blob, ghost chain: seq<Pgno>, ghost i: nat,
                       ghost stored: Blob, ghost key: Blob, ghost pos: nat) returns (n: nat, c: int)
      requires Carried(pages, chain, Overflowing(payload), |payload|) && i < |chain| && p == chain[i]
      requires |payload| > MX_LOCAL_PAYLOAD && |stored| <= |payload| && stored == payload[..|stored|]
      requires Comparing(stored, key, pos) && pos == MX_LOCAL_PAYLOAD + OVERFLOW_SIZE * i
      requires zKey == key[pos..] && nLocal == |stored| - pos
      ensures p in pages
      ensures c != 0 ==> c == FileKeyCompare(stored, key)
      ensures n == Min(Min(|zKey|, nLocal), OVERFLOW_SIZE)
      ensures c == 0 ==> Comparing(stored, key, pos + n) && zKey[n..] == key[pos + n..]
    {
      n := if |zKey| < nLocal then |zKey| else nLocal;
      if n > OVERFLOW_SIZE { n := OVERFLOW_SIZE; }
      KeyOnPage(pages, payload, chain, i, |stored|, n);
      c := CompareBytes(pages[p].area.aPayload, zKey, n, stored, key, pos);
    }

    method CompareChain(ovfl: Pgno, rest: Blob, left: nat, ghost payload: Blob, ghost chain: seq<Pgno>,
                        ghost stored: Blob, ghost key: Blob) returns (ok: bool, result: int)
      requires |payload| > MX_LOCAL_PAYLOAD && |stored| <= |payload| && stored == payload[..|stored|]
      requires Comparing(stored, key, MX_LOCAL_PAYLOAD) && rest == key[MX_LOCAL_PAYLOAD..]
      requires left == |stored| - MX_LOCAL_PAYLOAD && RightLength(chain, |payload| - MX_LOCAL_PAYLOAD)
      requires Linked(pages, ovfl, chain) && Ended(pages, ovfl, chain) && Carried(pages, chain, Overflowing(payload), |payload|)
      ensures ok && result == FileKeyCompare(stored, key)
    {
      var nextPage, zKey, nLocal := ovfl, rest, left;
      ghost var i: nat, pos: nat := 0, MX_LOCAL_PAYLOAD;
      while |zKey| > 0 && nLocal > 0
        invariant Comparing(stored, key, pos) && zKey == key[pos..] && nLocal == |stored| - pos
        invariant |zKey| > 0 && nLocal > 0 ==> pos == MX_LOCAL_PAYLOAD + OVERFLOW_SIZE * i
        invariant i <= |chain| && nextPage == NextIn(chain, i)
        decreases nLocal
      {
        if nextPage == 0 {
          assert false;
          return false, 0;
        }
        var n, c := ComparePage(nextPage, zKey, nLocal, payload, chain, i, stored, key, pos);
        nextPage := pages[nextPage].iNext;
        if c != 0 { return true, c; }
        nLocal := nLocal - n;
        zKey := zKey[n..];
        pos := pos + n;
        i := i + 1;
      }
      Exhausted(stored, key, pos);
      return true, nLocal - |zKey|;
    }
  }

  /** How many bytes of the stored key take part. */
  function Compared(h: CellHdr, nIgnore: nat): int {
    if NKEY(h) < nIgnore then 0 else NKEY(h) - nIgnore
  }

  /** How many of the first w bytes of a payload lie beyond its cell. */
  function Spilled(w: nat): nat {
    if w <= MX_LOCAL_PAYLOAD then 0 else w - MX_LOCAL_PAYLOAD
  }

  ghost predicate SizesAre(cell: Cell, payload: Blob) {
    NKEY(cell.h) + NDATA(cell.h) == |payload|
  }

  ghost function Members(chain: seq<Pgno>): set<Pgno> {
    set p | p in chain
  }

  lemma NotYetFreed(chain: seq<Pgno>, i: nat)
    requires i < |chain| && Distinct(chain)
    ensures chain[i] !in Members(chain[..i])
  {
  }

  lemma MembersGrow(chain: seq<Pgno>, i: nat)
    requires i < |chain|
    ensures Members(chain[..i + 1]) == Members(chain[..i]) + {chain[i]}
  {
    assert chain[..i + 1] == chain[..i] + [chain[i]];
  }
}

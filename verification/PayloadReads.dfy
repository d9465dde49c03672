/** What reading a cell's payload gives, whatever was or was not stored in it, and when what was stored comes back (btree.c). */
module PayloadReads {

  import opened Wrappers
  import opened Bytes
  import opened FileFormat
  import opened FreePages
  import opened CellPayload

  /** amt bytes from byte off of the chain that starts at page next; None if the chain ends before. */
  function FetchFrom(pages: Pages, next: Pgno, off: nat, amt: nat): Option<Blob>
    decreases off + amt
  {
    if amt == 0 then Some([])
    else if next == 0 || next !in pages then None
    else if off >= OVERFLOW_SIZE then FetchFrom(pages, pages[next].iNext, off - OVERFLOW_SIZE, amt)
    else
      var a := Min(amt, OVERFLOW_SIZE - off);
      Prefixed(Raw(pages[next].area)[off..off + a], FetchFrom(pages, pages[next].iNext, 0, amt - a))
  }

  function Prefixed(b: Blob, rest: Option<Blob>): Option<Blob> {
    if rest.None? then None else Some(b + rest.value)
  }

  lemma PrefixedNone(rest: Option<Blob>)
    ensures Prefixed([], rest) == rest
  {
    if rest.Some? { assert [] + rest.value == rest.value; }
  }

  lemma PrefixedTwice(a: Blob, b: Blob, rest: Option<Blob>)
    ensures Prefixed(a, Prefixed(b, rest)) == Prefixed(a + b, rest)
  {
    if rest.Some? { assert a + (b + rest.value) == a + b + rest.value; }
  }

  /** amt bytes from byte offset on: first those in the cell, then those on its chain. */
  function Fetch(pages: Pages, cell: Cell, offset: nat, amt: nat): Option<Blob>
    requires |cell.aPayload| == MX_LOCAL_PAYLOAD
  {
    if offset >= MX_LOCAL_PAYLOAD then FetchFrom(pages, cell.ovfl, offset - MX_LOCAL_PAYLOAD, amt)
    else
      var a := Min(amt, MX_LOCAL_PAYLOAD - offset);
      Prefixed(cell.aPayload[offset..offset + a], FetchFrom(pages, cell.ovfl, 0, amt - a))
  }

  lemma {:induction false} ChainFetched(pages: Pages, head: Pgno, payload: Blob, chain: seq<Pgno>, i: nat, off: nat, amt: nat)
    requires Linked(pages, head, chain) && Ended(pages, head, chain) && Carried(pages, chain, Overflowing(payload), |payload|)
    requires |payload| > MX_LOCAL_PAYLOAD && i <= |chain|
    ensures FetchedAt(FetchFrom(pages, NextIn(chain, i), off, amt), payload, Room(chain), OnPage(i, off), amt)
    decreases off + amt
  {
    if amt > 0 && i < |chain| {
      assert CarriesUpTo(pages, chain[i], Overflowing(payload), i, |payload|);
      assert pages[chain[i]].iNext == NextIn(chain, i + 1);
      if off >= OVERFLOW_SIZE {
        ChainFetched(pages, head, payload, chain, i + 1, off - OVERFLOW_SIZE, amt);
        FarFetched(pages, chain[i], payload, Room(chain), i, off, amt);
      } else {
        var a := Min(amt, OVERFLOW_SIZE - off);
        ChainFetched(pages, head, payload, chain, i + 1, 0, amt - a);
        assert OnPage(i + 1, 0) <= Room(chain);
        NearFetched(pages, chain[i], payload, Room(chain), i, off, amt, a);
      }
    }
  }

  lemma FarFetched(pages: Pages, p: Pgno, payload: Blob, room: nat, i: nat, off: nat, amt: nat)
    requires p != 0 && p in pages && off >= OVERFLOW_SIZE && amt > 0
    requires FetchedAt(FetchFrom(pages, pages[p].iNext, off - OVERFLOW_SIZE, amt), payload, room, OnPage(i + 1, off - OVERFLOW_SIZE), amt)
    ensures FetchedAt(FetchFrom(pages, p, off, amt), payload, room, OnPage(i, off), amt)
  {}

  lemma NearFetched(pages: Pages, p: Pgno, payload: Blob, room: nat, i: nat, off: nat, amt: nat, a: nat)
    requires p != 0 && p in pages && off < OVERFLOW_SIZE && amt > 0 && a == Min(amt, OVERFLOW_SIZE - off)
    requires CarriesUpTo(pages, p, Overflowing(payload), i, |payload|) && |payload| > MX_LOCAL_PAYLOAD && OnPage(i + 1, 0) <= room
    requires FetchedAt(FetchFrom(pages, pages[p].iNext, 0, amt - a), payload, room, OnPage(i + 1, 0), amt - a)
    ensures FetchedAt(FetchFrom(pages, p, off, amt), payload, room, OnPage(i, off), amt)
  {
    PageFetched(pages, payload, p, i, off, amt, a, FetchFrom(pages, pages[p].iNext, 0, amt - a));
  }

  /** Byte off of page i of a chain, counted from the start of the payload. */
  function OnPage(i: nat, off: nat): nat {
    MX_LOCAL_PAYLOAD + OVERFLOW_SIZE * i + off
  }

  /** What was read of a payload, from a chain with this much room. */
  predicate FetchedAt(f: Option<Blob>, payload: Blob, room: nat, at: nat, amt: nat) {
    && (f.Some? <==> amt == 0 || at + amt <= room)
    && (at + amt <= |payload| && f.Some? ==> f.value == payload[at..at + amt])
  }

  lemma PageFetched(pages: Pages, payload: Blob, p: Pgno, i: nat, off: nat, amt: nat, a: nat, rest: Option<Blob>)
    requires CarriesUpTo(pages, p, Overflowing(payload), i, |payload|) && |payload| > MX_LOCAL_PAYLOAD
    requires off < OVERFLOW_SIZE && a == Min(amt, OVERFLOW_SIZE - off)
    requires var at := MX_LOCAL_PAYLOAD + OVERFLOW_SIZE * i + off;
      at + amt <= |payload| && rest.Some? ==> rest.value == payload[at + a..at + amt]
    ensures var at := MX_LOCAL_PAYLOAD + OVERFLOW_SIZE * i + off;
      at + amt <= |payload| && rest.Some? ==>
        Prefixed(Raw(pages[p].area)[off..off + a], rest) == Some(payload[at..at + amt])
  {
    var at := MX_LOCAL_PAYLOAD + OVERFLOW_SIZE * i + off;
    if at + amt <= |payload| {
      PageRead(pages, payload, p, i, off, a);
      assert payload[at..at + amt] == payload[at..at + a] + payload[at + a..at + amt];
    }
  }

  /** From a stored payload every range comes back; a range beyond it comes back exactly as far as the chain goes. */
  lemma StoredIsFetched(pages: Pages, cell: Cell, payload: Blob, chain: seq<Pgno>, offset: nat, amt: nat)
    requires Stores(pages, cell, payload, chain) && (offset + amt <= |payload| || |payload| > MX_LOCAL_PAYLOAD)
    ensures var f := Fetch(pages, cell, offset, amt);
      && (f.Some? <==> amt == 0 || offset + amt <= Room(chain))
      && (offset + amt <= |payload| ==> f == Some(payload[offset..offset + amt]))
  {
    if |payload| > MX_LOCAL_PAYLOAD {
      LongIsFetched(pages, cell, payload, chain, offset, amt);
    } else if offset < MX_LOCAL_PAYLOAD {
      assert Min(amt, MX_LOCAL_PAYLOAD - offset) == amt;
      LocalFetched(cell, payload, offset, amt, amt, Some([]));
    }
  }

  lemma LongIsFetched(pages: Pages, cell: Cell, payload: Blob, chain: seq<Pgno>, offset: nat, amt: nat)
    requires Stores(pages, cell, payload, chain) && |payload| > MX_LOCAL_PAYLOAD
    ensures var f := Fetch(pages, cell, offset, amt);
      && (f.Some? <==> amt == 0 || offset + amt <= Room(chain))
      && (offset + amt <= |payload| ==> f == Some(payload[offset..offset + amt]))
  {
    if offset >= MX_LOCAL_PAYLOAD {
      ChainFetched(pages, cell.ovfl, payload, chain, 0, offset - MX_LOCAL_PAYLOAD, amt);
    } else {
      var a := Min(amt, MX_LOCAL_PAYLOAD - offset);
      ChainFetched(pages, cell.ovfl, payload, chain, 0, 0, amt - a);
      var rest := FetchFrom(pages, cell.ovfl, 0, amt - a);
      if offset + amt <= |payload| {
        assert rest.Some?;
        assert amt - a > 0 ==> offset + a == MX_LOCAL_PAYLOAD;
        assert rest.value == payload[offset + a..offset + amt];
        LocalFetched(cell, payload, offset, amt, a, rest);
      }
    }
  }

  lemma LocalFetched(cell: Cell, payload: Blob, offset: nat, amt: nat, a: nat, rest: Option<Blob>)
    requires LocalUpTo(cell, payload, |payload|) && offset < MX_LOCAL_PAYLOAD && a == Min(amt, MX_LOCAL_PAYLOAD - offset)
    requires offset + amt <= |payload| && rest.Some? ==> rest.value == payload[offset + a..offset + amt]
    ensures offset + amt <= |payload| && rest.Some? ==>
      Prefixed(cell.aPayload[offset..offset + a], rest) == Some(payload[offset..offset + amt])
  {
    if offset + amt <= |payload| {
      LocalRead(cell, payload, offset, a);
      assert payload[offset..offset + amt] == payload[offset..offset + a] + payload[offset + a..offset + amt];
    }
  }

  // ---- when what was stored comes back

  /** Every range of the data, read behind the key as the cell's header has it. */
  ghost predicate DataComesBack(pages: Pages, cell: Cell, data: Blob) {
    |cell.aPayload| == MX_LOCAL_PAYLOAD && NKEY(cell.h) >= 0 &&
    forall offset: nat, amt: nat | offset + amt <= |data| :: ComesBack(pages, cell, NKEY(cell.h), data, offset, amt)
  }

  /** This range of s is read from byte start on. */
  ghost predicate ComesBack(pages: Pages, cell: Cell, start: nat, s: Blob, offset: nat, amt: nat)
    requires |cell.aPayload| == MX_LOCAL_PAYLOAD && offset + amt <= |s|
  {
    Fetch(pages, cell, start + offset, amt) == Some(s[offset..offset + amt])
  }

  ghost predicate KeyComesBack(pages: Pages, cell: Cell, key: Blob) {
    |cell.aPayload| == MX_LOCAL_PAYLOAD &&
    forall offset: nat, amt: nat | offset + amt <= |key| :: ComesBack(pages, cell, 0, key, offset, amt)
  }

  /** What fillInCell promises of the cell it makes. */
  ghost predicate Filled(pages: Pages, cell: Cell, key: Blob, data: Blob, chain: seq<Pgno>) {
    Stores(pages, cell, PayloadOf(key, data), chain) && cell.h == HeaderFor(|key|, |data|)
  }

  lemma FilledComesBack(pages: Pages, cell: Cell, key: Blob, data: Blob, chain: seq<Pgno>)
    requires Filled(pages, cell, key, data, chain) && |key| < 0x100_0000
    ensures KeyComesBack(pages, cell, key)
    ensures key != [] || data == [] ==> DataComesBack(pages, cell, data)
  {
    SizesFit(|key|, |data|);
    var payload := PayloadOf(key, data);
    forall offset: nat, amt: nat | offset + amt <= |key|
      ensures ComesBack(pages, cell, 0, key, offset, amt)
    {
      StoredIsFetched(pages, cell, payload, chain, offset, amt);
      assert key != [] ==> payload[offset..offset + amt] == key[offset..offset + amt];
    }
    if key != [] || data == [] {
      forall offset: nat, amt: nat | offset + amt <= |data|
        ensures ComesBack(pages, cell, NKEY(cell.h), data, offset, amt)
      {
        StoredIsFetched(pages, cell, payload, chain, |key| + offset, amt);
        DataBehindKey(key, data, offset, amt);
      }
    }
  }

  lemma DataRange(pages: Pages, cell: Cell, data: Blob, offset: nat, amt: nat)
    requires DataComesBack(pages, cell, data) && offset + amt <= |data|
    ensures Fetch(pages, cell, NKEY(cell.h) + offset, amt) == Some(data[offset..offset + amt])
  {
    assert ComesBack(pages, cell, NKEY(cell.h), data, offset, amt);
  }

  ghost predicate RangeBack(pages: Pages, cell: Cell, start: nat, s: Blob, offset: nat, amt: nat) {
    |cell.aPayload| == MX_LOCAL_PAYLOAD && offset + amt <= |s| && ComesBack(pages, cell, start, s, offset, amt)
  }

  /** One range of the data of a cell filled in. */
  lemma FilledRange(pages: Pages, cell: Cell, key: Blob, data: Blob, chain: seq<Pgno>, offset: nat, amt: nat)
    requires Filled(pages, cell, key, data, chain) && |key| < 0x100_0000 && offset + amt <= |data|
    ensures |cell.aPayload| == MX_LOCAL_PAYLOAD && NKEY(cell.h) == |key|
    ensures key != [] || data == [] ==> RangeBack(pages, cell, |key|, data, offset, amt)
  {
    SizesFit(|key|, |data|);
    FilledComesBack(pages, cell, key, data, chain);
    if key != [] || data == [] { DataRange(pages, cell, data, offset, amt); }
  }

  lemma DataBehindKey(key: Blob, data: Blob, offset: nat, amt: nat)
    requires (key != [] || data == []) && offset + amt <= |data|
    ensures PayloadOf(key, data)[|key| + offset..|key| + offset + amt] == data[offset..offset + amt]
  {}

  /**
   * Whatever fillInCell may leave, every range of the data comes back if and only if there is a key or no data: with an
   * empty key nothing is stored, and what is read is what the cell held before.
   */
  lemma DataComesBackExactly(key: Blob, data: Blob)
    requires |key| < 0x100_0000
    ensures (forall pages, cell, chain | Filled(pages, cell, key, data, chain) :: DataComesBack(pages, cell, data))
            <==> key != [] || data == []
  {
    if key != [] || data == [] {
      forall pages, cell, chain | Filled(pages, cell, key, data, chain) ensures DataComesBack(pages, cell, data) {
        FilledComesBack(pages, cell, key, data, chain);
      }
    } else {
      var cell := LeftBehind(data);
      StaleDataRead(data);
      assert Filled(map[], cell, key, data, []) && !DataComesBack(map[], cell, data);
    }
  }

  /** A cell for an empty key, in whose payload area something else was. */
  function LeftBehind(data: Blob): Cell
    requires data != []
  {
    Cell(HeaderFor(0, |data|), seq(MX_LOCAL_PAYLOAD, _ => if data[0] == 0 then 1 else 0), 0)
  }

  /** Stored under the empty key, data comes back as what the cell held before. */
  lemma StaleDataRead(data: Blob)
    requires data != []
    ensures Filled(map[], LeftBehind(data), [], data, [])
    ensures Fetch(map[], LeftBehind(data), 0, 1).Some? && Fetch(map[], LeftBehind(data), 0, 1).value != data[..1]
    ensures !DataComesBack(map[], LeftBehind(data), data)
  {
    var cell := LeftBehind(data);
    SizesFit(0, |data|);
    assert Fetch(map[], cell, 0, 1) == Some(cell.aPayload[0..1] + []);
    assert (cell.aPayload[0..1] + [])[0] != data[..1][0];
    assert !ComesBack(map[], cell, NKEY(cell.h), data, 0, 1);
  }
}

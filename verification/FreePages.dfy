/**
 * The freelist of a database file (btree.c): page 1 counts the free pages and names the first of a chain of trunk pages,
 * each of which lists up to 254 further free pages.
 */
module FreePages {

  import opened Bytes
  import opened FileFormat

  /** What follows the next-page number: bytes of payload, or the free-page list of a trunk. */
  datatype Area =
    | Payload(aPayload: Blob)
    | FreelistInfo(nFree: nat, aFree: seq<Pgno>)

  datatype Page = Page(iNext: Pgno, area: Area)

  type Pages = map<Pgno, Page>

  predicate IsTrunk(page: Page) {
    page.area.FreelistInfo? && page.area.nFree <= MX_FREE == |page.area.aFree|
  }

  function Leaves(page: Page): seq<Pgno>
    requires IsTrunk(page)
  {
    page.area.aFree[..page.area.nFree]
  }

  /** trunks are the trunk pages in the order of the chain that starts at head. */
  ghost predicate Trunks(pages: Pages, head: Pgno, trunks: seq<Pgno>)
    decreases |trunks|
  {
    if trunks == [] then head == 0
    else head == trunks[0] != 0 && head in pages && IsTrunk(pages[head]) && Trunks(pages, pages[head].iNext, trunks[1..])
  }

  /** All free pages: the trunks and what they list. */
  ghost function FreeBag(pages: Pages, head: Pgno, trunks: seq<Pgno>): multiset<Pgno>
    requires Trunks(pages, head, trunks)
    decreases |trunks|
  {
    if trunks == [] then multiset{}
    else multiset{head} + multiset(Leaves(pages[head])) + FreeBag(pages, pages[head].iNext, trunks[1..])
  }

  /** Every page above page 1. */
  function AllPages(dbSize: nat): set<Pgno> {
    set p | 0 <= p <= dbSize && InFile(p, dbSize)
  }

  predicate InFile(p: Pgno, dbSize: nat) {
    2 <= p <= dbSize
  }

  /** Each page above 1 is in use or free, exactly once; page 1 knows how many are free. */
  ghost predicate Accounted(pages: Pages, dbSize: nat, head: Pgno, nFree: int, trunks: seq<Pgno>, inUse: set<Pgno>) {
    && Trunks(pages, head, trunks)
    && FreeBag(pages, head, trunks) + multiset(inUse) == multiset(AllPages(dbSize))
    && nFree == |FreeBag(pages, head, trunks)|
    && (forall p :: p in AllPages(dbSize) ==> p in pages)
  }

  /** Trunks are free pages. */
  lemma {:induction false} TrunksAreFree(pages: Pages, head: Pgno, trunks: seq<Pgno>)
    requires Trunks(pages, head, trunks)
    ensures forall t :: t in trunks ==> t in FreeBag(pages, head, trunks)
    decreases |trunks|
  {
    if trunks != [] {
      TrunksAreFree(pages, pages[head].iNext, trunks[1..]);
      forall t | t in trunks ensures t in FreeBag(pages, head, trunks) {
        if t != head { assert t in trunks[1..]; }
      }
    }
  }

  ghost predicate Untouched(pages: Pages, pages2: Pages, s: seq<Pgno>) {
    forall p :: p in s && p in pages ==> p in pages2 && pages2[p] == pages[p]
  }

  /** Only the trunk pages themselves matter. */
  lemma {:induction false} TrunksFrame(pages: Pages, pages2: Pages, head: Pgno, trunks: seq<Pgno>)
    requires Trunks(pages, head, trunks) && Untouched(pages, pages2, trunks)
    ensures Trunks(pages2, head, trunks)
    ensures FreeBag(pages2, head, trunks) == FreeBag(pages, head, trunks)
    decreases |trunks|
  {
    if trunks != [] {
      assert head in trunks;
      TrunksFrame(pages, pages2, pages[head].iNext, trunks[1..]);
    }
  }

  /** No page is free twice or both free and in use. */
  lemma FreeOnce(free: multiset<Pgno>, inUse: set<Pgno>, dbSize: nat, p: Pgno)
    requires free + multiset(inUse) == multiset(AllPages(dbSize))
    ensures free[p] <= 1
    ensures p in free ==> p !in inUse && 2 <= p <= dbSize
    ensures p in inUse ==> 2 <= p <= dbSize
    ensures 2 <= p <= dbSize ==> p in free || p in inUse
  {
    var all := multiset(AllPages(dbSize));
    assert all[p] == (free + multiset(inUse))[p];
    assert all[p] <= 1;
  }

  /** The head trunk is not one of the trunks after it. */
  lemma HeadOnce(pages: Pages, dbSize: nat, head: Pgno, nFree: int, trunks: seq<Pgno>, inUse: set<Pgno>)
    requires Accounted(pages, dbSize, head, nFree, trunks, inUse) && trunks != []
    ensures head !in trunks[1..]
  {
    TrunksAreFree(pages, pages[head].iNext, trunks[1..]);
    FreeOnce(FreeBag(pages, head, trunks), inUse, dbSize, head);
  }

  // ---- what allocatePage and freePage do to the freelist

  /** The head trunk gives up entry i; the last entry takes its place. */
  function WithoutLeaf(page: Page, i: nat): Page
    requires IsTrunk(page) && i < page.area.nFree
  {
    var info := page.area;
    page.(area := FreelistInfo(info.nFree - 1, info.aFree[i := info.aFree[info.nFree - 1]]))
  }

  function WithLeaf(page: Page, p: Pgno): Page
    requires IsTrunk(page) && page.area.nFree < MX_FREE
  {
    page.(area := FreelistInfo(page.area.nFree + 1, page.area.aFree[page.area.nFree := p]))
  }

  lemma SwapOut(s: seq<Pgno>, i: nat)
    requires i < |s|
    ensures multiset(s[i := s[|s| - 1]][..|s| - 1]) == multiset(s) - multiset{s[i]}
  {
    var n := |s|;
    var x := s[n - 1];
    var cut := s[..n - 1];
    assert s == cut + [x];
    if i == n - 1 {
      assert s[i := x][..n - 1] == cut;
    } else {
      assert s[i := x][..n - 1] == cut[i := x];
      assert multiset(cut[i := x]) == multiset(cut) - multiset{cut[i]} + multiset{x};
    }
  }

  lemma LeafGone(page: Page, i: nat)
    requires IsTrunk(page) && i < page.area.nFree
    ensures multiset(Leaves(WithoutLeaf(page, i))) == multiset(Leaves(page)) - multiset{page.area.aFree[i]}
    ensures page.area.aFree[i] in multiset(Leaves(page))
  {
    var n := page.area.nFree;
    var s := Leaves(page);
    assert s[i] == page.area.aFree[i];
    assert Leaves(WithoutLeaf(page, i)) == s[i := s[n - 1]][..n - 1];
    SwapOut(s, i);
  }

  lemma LeafAdded(page: Page, p: Pgno)
    requires IsTrunk(page) && page.area.nFree < MX_FREE
    ensures multiset(Leaves(WithLeaf(page, p))) == multiset(Leaves(page)) + multiset{p}
  {
    assert Leaves(WithLeaf(page, p)) == Leaves(page) + [p];
  }

  /** Replacing the head trunk by one with the same successor changes its own leaves only. */
  lemma HeadReplaced(pages: Pages, dbSize: nat, head: Pgno, nFree: int, trunks: seq<Pgno>, inUse: set<Pgno>, page: Page)
    requires Accounted(pages, dbSize, head, nFree, trunks, inUse) && trunks != []
    requires IsTrunk(page) && page.iNext == pages[head].iNext
    ensures Trunks(pages[head := page], head, trunks)
    ensures FreeBag(pages[head := page], head, trunks) + multiset(Leaves(pages[head]))
         == FreeBag(pages, head, trunks) + multiset(Leaves(page))
    ensures multiset(Leaves(pages[head])) <= FreeBag(pages, head, trunks)
  {
    var pages2 := pages[head := page];
    HeadOnce(pages, dbSize, head, nFree, trunks, inUse);
    TrunksFrame(pages, pages2, page.iNext, trunks[1..]);
    OtherLeaves(multiset{head}, multiset(Leaves(pages[head])), multiset(Leaves(page)),
                FreeBag(pages, page.iNext, trunks[1..]), FreeBag(pages, head, trunks), FreeBag(pages2, head, trunks));
  }

  lemma OtherLeaves(h: multiset<Pgno>, l1: multiset<Pgno>, l2: multiset<Pgno>, rest: multiset<Pgno>,
                    free: multiset<Pgno>, free2: multiset<Pgno>)
    requires free == h + l1 + rest && free2 == h + l2 + rest
    ensures free2 + l1 == free + l2 && l1 <= free
  {
  }

  /** One page leaves the bag of free pages for the pages in use. */
  lemma Taken(free: multiset<Pgno>, free2: multiset<Pgno>, inUse: set<Pgno>, dbSize: nat, p: Pgno)
    requires free + multiset(inUse) == multiset(AllPages(dbSize)) && p in free && free2 == free - multiset{p}
    ensures p !in inUse && 2 <= p <= dbSize && |free2| == |free| - 1
    ensures free2 + multiset(inUse + {p}) == multiset(AllPages(dbSize))
  {
    FreeOnce(free, inUse, dbSize, p);
    assert multiset(inUse + {p}) == multiset(inUse) + multiset{p};
    assert free == free2 + multiset{p};
  }

  /** And the other way. */
  lemma Given(free: multiset<Pgno>, free2: multiset<Pgno>, inUse: set<Pgno>, dbSize: nat, p: Pgno)
    requires free + multiset(inUse) == multiset(AllPages(dbSize)) && p in inUse && free2 == free + multiset{p}
    ensures p !in free && |free2| == |free| + 1
    ensures free2 + multiset(inUse - {p}) == multiset(AllPages(dbSize))
  {
    FreeOnce(free, inUse, dbSize, p);
    assert multiset(inUse) == multiset(inUse - {p}) + multiset{p};
  }

  lemma Exchange(free: multiset<Pgno>, free2: multiset<Pgno>, l1: multiset<Pgno>, l2: multiset<Pgno>, p: Pgno)
    requires free2 + l1 == free + l2
    ensures p in l1 && l2 == l1 - multiset{p} && l1 <= free ==> p in free && free2 == free - multiset{p}
    ensures l2 == l1 + multiset{p} ==> free2 == free + multiset{p}
  {
    if p in l1 && l2 == l1 - multiset{p} && l1 <= free {
      forall q ensures free2[q] == (free - multiset{p})[q] {
        assert (free2 + l1)[q] == (free + l2)[q];
      }
    }
    if l2 == l1 + multiset{p} {
      forall q ensures free2[q] == (free + multiset{p})[q] {
        assert (free2 + l1)[q] == (free + l2)[q];
      }
    }
  }

  /** Handing out a leaf of the head trunk. */
  lemma TakeLeaf(pages: Pages, dbSize: nat, head: Pgno, nFree: int, trunks: seq<Pgno>, inUse: set<Pgno>, i: nat)
    requires Accounted(pages, dbSize, head, nFree, trunks, inUse) && trunks != [] && i < pages[head].area.nFree
    ensures var p := pages[head].area.aFree[i];
      && p !in inUse && 2 <= p <= dbSize && p !in trunks
      && Accounted(pages[head := WithoutLeaf(pages[head], i)], dbSize, head, nFree - 1, trunks, inUse + {p})
  {
    var p := pages[head].area.aFree[i];
    var page := WithoutLeaf(pages[head], i);
    LeafGone(pages[head], i);
    HeadReplaced(pages, dbSize, head, nFree, trunks, inUse, page);
    var free, free2 := FreeBag(pages, head, trunks), FreeBag(pages[head := page], head, trunks);
    Exchange(free, free2, multiset(Leaves(pages[head])), multiset(Leaves(page)), p);
    Taken(free, free2, inUse, dbSize, p);
    LeafIsNoTrunk(pages, dbSize, head, nFree, trunks, inUse, p);
  }

  lemma LeafIsNoTrunk(pages: Pages, dbSize: nat, head: Pgno, nFree: int, trunks: seq<Pgno>, inUse: set<Pgno>, p: Pgno)
    requires Accounted(pages, dbSize, head, nFree, trunks, inUse) && trunks != [] && p in Leaves(pages[head])
    ensures p !in trunks
  {
    TrunksAreFree(pages, pages[head].iNext, trunks[1..]);
    FreeOnce(FreeBag(pages, head, trunks), inUse, dbSize, p);
    assert p in multiset(Leaves(pages[head]));
    assert p != head && p !in trunks[1..];
  }

  /** Handing out the head trunk itself, once it lists nothing. */
  lemma TakeTrunk(pages: Pages, dbSize: nat, head: Pgno, nFree: int, trunks: seq<Pgno>, inUse: set<Pgno>)
    requires Accounted(pages, dbSize, head, nFree, trunks, inUse) && trunks != [] && pages[head].area.nFree == 0
    ensures head !in inUse && 2 <= head <= dbSize && head !in trunks[1..]
    ensures Accounted(pages, dbSize, pages[head].iNext, nFree - 1, trunks[1..], inUse + {head})
  {
    var free, free2 := FreeBag(pages, head, trunks), FreeBag(pages, pages[head].iNext, trunks[1..]);
    HeadOnce(pages, dbSize, head, nFree, trunks, inUse);
    assert Leaves(pages[head]) == [];
    assert free2 == free - multiset{head};
    Taken(free, free2, inUse, dbSize, head);
  }

  /** Taking a page beyond the end of the file. */
  lemma TakeNew(pages: Pages, dbSize: nat, nFree: int, inUse: set<Pgno>, page: Page)
    requires Accounted(pages, dbSize, 0, nFree, [], inUse) && dbSize >= 1
    ensures dbSize + 1 !in inUse
    ensures Accounted(pages[dbSize + 1 := page], dbSize + 1, 0, nFree, [], inUse + {dbSize + 1})
  {
    var p := dbSize + 1;
    FreeOnce(multiset{}, inUse, dbSize, p);
    assert AllPages(p) == AllPages(dbSize) + {p};
    assert multiset(AllPages(p)) == multiset(AllPages(dbSize)) + multiset{p};
    assert multiset(inUse + {p}) == multiset(inUse) + multiset{p};
  }

  /** A freed page becomes a leaf of the head trunk if there is room. */
  lemma GiveLeaf(pages: Pages, dbSize: nat, head: Pgno, nFree: int, trunks: seq<Pgno>, inUse: set<Pgno>, p: Pgno)
    requires Accounted(pages, dbSize, head, nFree, trunks, inUse) && trunks != []
    requires p in inUse && pages[head].area.nFree < MX_FREE
    ensures Accounted(pages[head := WithLeaf(pages[head], p)], dbSize, head, nFree + 1, trunks, inUse - {p})
  {
    var page := WithLeaf(pages[head], p);
    LeafAdded(pages[head], p);
    HeadReplaced(pages, dbSize, head, nFree, trunks, inUse, page);
    var free, free2 := FreeBag(pages, head, trunks), FreeBag(pages[head := page], head, trunks);
    Exchange(free, free2, multiset(Leaves(pages[head])), multiset(Leaves(page)), p);
    Given(free, free2, inUse, dbSize, p);
  }

  function Zeros(): seq<Pgno> {
    seq(MX_FREE, _ => 0)
  }

  /** The freed page as a trunk: the next-page number set, the rest of the page zeroed. */
  function NewTrunk(head: Pgno): Page {
    Page(head, FreelistInfo(0, Zeros()))
  }

  /** Otherwise it becomes the new head trunk. */
  lemma GiveTrunk(pages: Pages, dbSize: nat, head: Pgno, nFree: int, trunks: seq<Pgno>, inUse: set<Pgno>, p: Pgno)
    requires Accounted(pages, dbSize, head, nFree, trunks, inUse) && p in inUse
    ensures Accounted(pages[p := NewTrunk(head)], dbSize, p, nFree + 1, [p] + trunks, inUse - {p})
  {
    var pages2 := pages[p := NewTrunk(head)];
    TrunksAreFree(pages, head, trunks);
    FreeOnce(FreeBag(pages, head, trunks), inUse, dbSize, p);
    TrunksFrame(pages, pages2, head, trunks);
    assert ([p] + trunks)[1..] == trunks;
    assert Leaves(pages2[p]) == [];
    Given(FreeBag(pages, head, trunks), FreeBag(pages2, p, [p] + trunks), inUse, dbSize, p);
  }

  /** Writing to a page in use leaves the freelist alone. */
  lemma InUseWritten(pages: Pages, dbSize: nat, head: Pgno, nFree: int, trunks: seq<Pgno>, inUse: set<Pgno>, p: Pgno, page: Page)
    requires Accounted(pages, dbSize, head, nFree, trunks, inUse) && p in inUse
    ensures Accounted(pages[p := page], dbSize, head, nFree, trunks, inUse)
  {
    TrunksAreFree(pages, head, trunks);
    FreeOnce(FreeBag(pages, head, trunks), inUse, dbSize, p);
    TrunksFrame(pages, pages[p := page], head, trunks);
  }

  // ---- which entry of a trunk is handed out

  function Distance(page: Page, i: nat, nearby: Pgno): nat
    requires IsTrunk(page) && i < page.area.nFree
  {
    var d := page.area.aFree[i] - nearby;
    if d < 0 then -d else d
  }

  /** The last of the first n entries, but for the first, that is nearer than the first; 0 if there is none. */
  function LastNearer(page: Page, nearby: Pgno, n: nat): (c: nat)
    requires IsTrunk(page) && 0 < n <= page.area.nFree
    ensures c < n && (c == 0 || Distance(page, c, nearby) < Distance(page, 0, nearby))
    ensures forall i | c < i < n :: Distance(page, i, nearby) >= Distance(page, 0, nearby)
  {
    if n == 1 then 0
    else if Distance(page, n - 1, nearby) < Distance(page, 0, nearby) then n - 1
    else LastNearer(page, nearby, n - 1)
  }

  /** The entry of the trunk that allocatePage hands out. */
  function Closest(page: Page, nearby: Pgno): (c: nat)
    requires IsTrunk(page) && page.area.nFree > 0
    ensures c < page.area.nFree
  {
    if nearby > 0 then LastNearer(page, nearby, page.area.nFree) else 0
  }

  /** No entry is nearer to the page asked for. */
  ghost predicate IsNearest(page: Page, nearby: Pgno, c: nat)
    requires IsTrunk(page) && c < page.area.nFree
  {
    forall i | 0 <= i < page.area.nFree :: Distance(page, c, nearby) <= Distance(page, i, nearby)
  }

  /** The entry handed out is a nearest one if and only if no entry listed before it is nearer. */
  lemma NearestExactly(page: Page, nearby: Pgno)
    requires IsTrunk(page) && page.area.nFree > 0 && nearby > 0
    ensures var c := Closest(page, nearby);
      IsNearest(page, nearby, c) <==> forall i | 0 <= i < c :: Distance(page, c, nearby) <= Distance(page, i, nearby)
  {
    var c := Closest(page, nearby);
    forall i | c < i < page.area.nFree ensures Distance(page, c, nearby) <= Distance(page, i, nearby) {}
  }

  /** Asked for a page near page 4, a trunk that lists 10, 5 and 8 hands out 8. */
  lemma NotTheNearest()
    ensures var page := Page(0, FreelistInfo(3, seq(MX_FREE, i => if i == 0 then 10 else if i == 1 then 5 else 8)));
      IsTrunk(page) && Closest(page, 4) == 2 && !IsNearest(page, 4, 2)
  {
    var page := Page(0, FreelistInfo(3, seq(MX_FREE, i => if i == 0 then 10 else if i == 1 then 5 else 8)));
    assert Distance(page, 1, 4) < Distance(page, 2, 4) < Distance(page, 0, 4);
  }

  /** The page handed out of the freelist: an entry of the head trunk, or the trunk itself once it lists nothing. */
  function HandedOut(pages: Pages, head: Pgno, nearby: Pgno): Pgno {
    if head !in pages || !IsTrunk(pages[head]) then 0
    else if pages[head].area.nFree == 0 then head
    else pages[head].area.aFree[Closest(pages[head], nearby)]
  }
}

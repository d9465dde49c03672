/** Stretches of a page: free blocks in ascending order, never adjacent, and cells, together tiling the page. */
module PageTiles {
  import opened FileFormat

  datatype Blk = Blk(start: int, size: int)

  ghost predicate Aligned(b: Blk) {
    b.start % 4 == 0 && b.size % 4 == 0 && b.size > 0 && PAGE_HDR <= b.start && b.start + b.size <= SQLITE_USABLE_SIZE
  }

  ghost predicate AllAligned(s: seq<Blk>) {
    forall i | 0 <= i < |s| :: Aligned(s[i])
  }

  predicate Covers(b: Blk, a: int) {
    b.start <= a < b.start + b.size
  }

  ghost predicate InSome(s: seq<Blk>, a: int) {
    exists i :: 0 <= i < |s| && Covers(s[i], a)
  }

  /** Ascending, with a gap between any two. */
  ghost predicate Spaced(f: seq<Blk>) {
    forall i, j | 0 <= i < j < |f| :: f[i].start + f[i].size < f[j].start
  }

  ghost predicate Disjoint(a: Blk, b: Blk) {
    a.start + a.size <= b.start || b.start + b.size <= a.start
  }

  ghost predicate Apart(c: seq<Blk>) {
    forall i, j | 0 <= i < j < |c| :: Disjoint(c[i], c[j])
  }

  ghost function TotalSize(s: seq<Blk>): int {
    if s == [] then 0 else s[0].size + TotalSize(s[1..])
  }

  /** Every byte behind the header is in exactly one free block or in exactly one cell. */
  ghost predicate Tiled(f: seq<Blk>, c: seq<Blk>) {
    && AllAligned(f) && AllAligned(c) && Spaced(f) && Apart(c)
    && (forall a | PAGE_HDR <= a < SQLITE_USABLE_SIZE :: Once(f, c, a))
    && TotalSize(f) + TotalSize(c) == USABLE_SPACE
  }

  ghost predicate Once(f: seq<Blk>, c: seq<Blk>, a: int) {
    InSome(f, a) != InSome(c, a)
  }

  // ---------------------------------------------------------------- sequences

  lemma {:induction false} SumConcat(s: seq<Blk>, t: seq<Blk>)
    ensures TotalSize(s + t) == TotalSize(s) + TotalSize(t)
    decreases |s|
  {
    if s == [] {
      assert s + t == t;
    } else {
      assert (s + t)[1..] == s[1..] + t;
      SumConcat(s[1..], t);
    }
  }

  lemma SumAround(s: seq<Blk>, b: Blk, t: seq<Blk>)
    ensures TotalSize(s + [b] + t) == TotalSize(s) + b.size + TotalSize(t)
  {
    SumConcat(s + [b], t);
    SumConcat(s, [b]);
    assert [b][1..] == [];
  }

  lemma InConcat(s: seq<Blk>, t: seq<Blk>, a: int)
    ensures InSome(s + t, a) <==> InSome(s, a) || InSome(t, a)
  {
    if InSome(s, a) {
      var i :| 0 <= i < |s| && Covers(s[i], a);
      assert Covers((s + t)[i], a);
    }
    if InSome(t, a) {
      var i :| 0 <= i < |t| && Covers(t[i], a);
      assert Covers((s + t)[|s| + i], a);
    }
    if InSome(s + t, a) {
      var i :| 0 <= i < |s + t| && Covers((s + t)[i], a);
      assert if i < |s| then Covers(s[i], a) else Covers(t[i - |s|], a);
    }
  }

  lemma InAround(s: seq<Blk>, b: Blk, t: seq<Blk>, a: int)
    ensures InSome(s + [b] + t, a) <==> InSome(s, a) || Covers(b, a) || InSome(t, a)
  {
    InConcat(s + [b], t, a);
    InConcat(s, [b], a);
    assert InSome([b], a) <==> Covers(b, a) by {
      if Covers(b, a) { assert Covers([b][0], a); }
    }
  }

  // ---------------------------------------------------------------- taking a block

  /** The free list once n bytes are taken from the front of block k. */
  function Taken(f: seq<Blk>, k: nat, n: int): seq<Blk>
    requires k < |f|
  {
    f[..k] + (if f[k].size == n then [] else [Blk(f[k].start + n, f[k].size - n)]) + f[k + 1..]
  }

  lemma TakenSpaced(f: seq<Blk>, k: nat, n: int)
    requires k < |f| && AllAligned(f) && Spaced(f) && 0 < n <= f[k].size && n % 4 == 0
    ensures AllAligned(Taken(f, k, n)) && Spaced(Taken(f, k, n))
  {
    var t := Taken(f, k, n);
    var cut := f[k].size == n;
    forall i | 0 <= i < |t|
      ensures t[i] == if i < k then f[i] else if cut then f[i + 1] else if i == k then Blk(f[k].start + n, f[k].size - n) else f[i]
    {}
  }

  lemma SumAt(f: seq<Blk>, k: nat)
    requires k < |f|
    ensures TotalSize(f) == TotalSize(f[..k]) + f[k].size + TotalSize(f[k + 1..])
  {
    SumAround(f[..k], f[k], f[k + 1..]);
    assert f == f[..k] + [f[k]] + f[k + 1..];
  }

  lemma TakenSum(f: seq<Blk>, k: nat, n: int)
    requires k < |f|
    ensures TotalSize(Taken(f, k, n)) == TotalSize(f) - n
  {
    SumAt(f, k);
    if f[k].size == n {
      SumConcat(f[..k], f[k + 1..]);
    } else {
      SumAround(f[..k], Blk(f[k].start + n, f[k].size - n), f[k + 1..]);
    }
    TakenIs(f, k, n);
  }

  lemma TakenIs(f: seq<Blk>, k: nat, n: int)
    requires k < |f|
    ensures Taken(f, k, n) == if f[k].size == n then f[..k] + f[k + 1..]
                              else f[..k] + [Blk(f[k].start + n, f[k].size - n)] + f[k + 1..]
  {
  }

  /** A byte of the block was free; now it is free or in the new cell. */
  lemma TakenCovers(f: seq<Blk>, k: nat, n: int, a: int)
    requires k < |f| && AllAligned(f) && Spaced(f) && 0 < n <= f[k].size
    ensures InSome(f, a) <==> InSome(Taken(f, k, n), a) || Covers(Blk(f[k].start, n), a)
    ensures !(InSome(Taken(f, k, n), a) && Covers(Blk(f[k].start, n), a))
  {
    assert f == f[..k] + [f[k]] + f[k + 1..];
    InAround(f[..k], f[k], f[k + 1..], a);
    if f[k].size == n {
      assert Taken(f, k, n) == f[..k] + f[k + 1..];
      InConcat(f[..k], f[k + 1..], a);
    } else {
      InAround(f[..k], Blk(f[k].start + n, f[k].size - n), f[k + 1..], a);
    }
    if Covers(f[k], a) { OnlyHere(f, k, a); }
  }

  /** A byte in block k is in no other block. */
  lemma OnlyHere(f: seq<Blk>, k: nat, a: int)
    requires k < |f| && AllAligned(f) && Spaced(f) && Covers(f[k], a)
    ensures !InSome(f[..k], a) && !InSome(f[k + 1..], a)
  {
    forall i | 0 <= i < |f| && i != k ensures !Covers(f[i], a) {
      assert Aligned(f[i]) && Aligned(f[k]);
    }
    var r := f[k + 1..];
    forall i | 0 <= i < |r| ensures !Covers(r[i], a) {
      assert r[i] == f[k + 1 + i];
    }
  }

  lemma NotBoth(f: seq<Blk>, c: seq<Blk>, k: nat, j: nat, a: int)
    requires Tiled(f, c) && k < |f| && j < |c| && Covers(f[k], a)
    ensures !Covers(c[j], a)
  {
    assert Aligned(f[k]);
    assert Once(f, c, a);
  }

  /** A free block and a cell have no byte in common. */
  lemma FreeApart(f: seq<Blk>, c: seq<Blk>, k: nat, j: nat)
    requires Tiled(f, c) && k < |f| && j < |c|
    ensures Disjoint(f[k], c[j])
  {
    assert Aligned(f[k]) && Aligned(c[j]);
    if Covers(f[k], c[j].start) { NotBoth(f, c, k, j, c[j].start); }
    NotBoth(f, c, k, j, f[k].start);
  }

  /** Taking space for a new cell keeps the page tiled. */
  lemma TiledTaken(f: seq<Blk>, c1: seq<Blk>, c2: seq<Blk>, k: nat, n: int)
    requires Tiled(f, c1 + c2) && k < |f| && 0 < n <= f[k].size && n % 4 == 0
    ensures Tiled(Taken(f, k, n), c1 + [Blk(f[k].start, n)] + c2)
  {
    var b := Blk(f[k].start, n);
    TakenSpaced(f, k, n);
    TakenSum(f, k, n);
    SumAround(c1, b, c2);
    SumConcat(c1, c2);
    NewApart(f, c1, c2, k, n);
    forall a | PAGE_HDR <= a < SQLITE_USABLE_SIZE ensures Once(Taken(f, k, n), c1 + [b] + c2, a) {
      assert Once(f, c1 + c2, a);
      TakenCovers(f, k, n, a);
      InAround(c1, b, c2, a);
      InConcat(c1, c2, a);
    }
    assert Aligned(b) by { assert Aligned(f[k]); }
    AlignedAround(c1, b, c2);
  }

  lemma AlignedAround(c1: seq<Blk>, b: Blk, c2: seq<Blk>)
    ensures AllAligned(c1 + [b] + c2) <==> AllAligned(c1 + c2) && Aligned(b)
  {
    var s, t := c1 + [b] + c2, c1 + c2;
    if AllAligned(s) {
      forall i | 0 <= i < |t| ensures Aligned(t[i]) { assert t[i] == s[if i < |c1| then i else i + 1]; }
      assert b == s[|c1|];
    }
    if AllAligned(t) && Aligned(b) {
      forall i | 0 <= i < |s| ensures Aligned(s[i]) {
        assert s[i] == if i < |c1| then t[i] else if i == |c1| then b else t[i - 1];
      }
    }
  }

  lemma NewApart(f: seq<Blk>, c1: seq<Blk>, c2: seq<Blk>, k: nat, n: int)
    requires Tiled(f, c1 + c2) && k < |f| && 0 < n <= f[k].size
    ensures Apart(c1 + [Blk(f[k].start, n)] + c2)
  {
    var b, c := Blk(f[k].start, n), c1 + c2;
    var s := c1 + [b] + c2;
    forall i, j | 0 <= i < j < |s| ensures Disjoint(s[i], s[j]) {
      assert i != |c1| ==> s[i] == c[if i < |c1| then i else i - 1];
      assert j != |c1| ==> s[j] == c[if j < |c1| then j else j - 1];
      if i == |c1| { FreeApart(f, c, k, j - 1); } else if j == |c1| { FreeApart(f, c, k, i); }
    }
  }

  // ---------------------------------------------------------------- giving a block back

  /** The place of a freed stretch among the free blocks. */
  ghost predicate Place(f: seq<Blk>, p: nat, b: Blk) {
    && p <= |f|
    && (forall i | 0 <= i < p :: f[i].start + f[i].size <= b.start)
    && (forall i | p <= i < |f| :: b.start + b.size <= f[i].start)
  }

  predicate JoinsBefore(f: seq<Blk>, p: nat, b: Blk) {
    0 < p <= |f| && f[p - 1].start + f[p - 1].size == b.start
  }

  predicate JoinsAfter(f: seq<Blk>, p: nat, b: Blk) {
    p < |f| && b.start + b.size == f[p].start
  }

  /** The stretch and the neighbours it touches, as one block. */
  function Joined(f: seq<Blk>, p: nat, b: Blk): Blk {
    Blk(if JoinsBefore(f, p, b) then f[p - 1].start else b.start,
        (if JoinsBefore(f, p, b) then f[p - 1].size else 0) + b.size + if JoinsAfter(f, p, b) then f[p].size else 0)
  }

  function Freed(f: seq<Blk>, p: nat, b: Blk): seq<Blk>
    requires p <= |f|
  {
    f[..Lo(f, p, b)] + [Joined(f, p, b)] + f[Hi(f, p, b)..]
  }

  function Lo(f: seq<Blk>, p: nat, b: Blk): int {
    if JoinsBefore(f, p, b) then p - 1 else p
  }

  function Hi(f: seq<Blk>, p: nat, b: Blk): int {
    if JoinsAfter(f, p, b) then p + 1 else p
  }

  lemma FreedAt(f: seq<Blk>, p: nat, b: Blk, i: int)
    requires p <= |f| && 0 <= i < |Freed(f, p, b)|
    ensures var lo := Lo(f, p, b);
      Freed(f, p, b)[i] == if i < lo then f[i] else if i == lo then Joined(f, p, b) else f[i - lo - 1 + Hi(f, p, b)]
  {}

  lemma FreedAligned(f: seq<Blk>, p: nat, b: Blk)
    requires AllAligned(f) && Aligned(b) && Place(f, p, b)
    ensures AllAligned(Freed(f, p, b))
  {
    JoinedAligned(f, p, b);
    forall i | 0 <= i < |Freed(f, p, b)| ensures Aligned(Freed(f, p, b)[i]) { FreedAlignedAt(f, p, b, i); }
  }

  lemma JoinedAligned(f: seq<Blk>, p: nat, b: Blk)
    requires AllAligned(f) && Aligned(b) && Place(f, p, b)
    ensures Aligned(Joined(f, p, b))
  {
    if JoinsBefore(f, p, b) { assert Aligned(f[p - 1]); }
    if JoinsAfter(f, p, b) { assert Aligned(f[p]); }
  }

  lemma FreedAlignedAt(f: seq<Blk>, p: nat, b: Blk, i: int)
    requires AllAligned(f) && p <= |f| && Aligned(Joined(f, p, b)) && 0 <= i < |Freed(f, p, b)|
    ensures Aligned(Freed(f, p, b)[i])
  {
    FreedAt(f, p, b, i);
  }

  /** The joined block keeps its distance: what it touched is part of it. */
  lemma JoinedSpaced(f: seq<Blk>, p: nat, b: Blk, i: nat)
    requires AllAligned(f) && Spaced(f) && Aligned(b) && Place(f, p, b) && i < |f|
    ensures i < Lo(f, p, b) ==> f[i].start + f[i].size < Joined(f, p, b).start
    ensures i >= Hi(f, p, b) ==> Joined(f, p, b).start + Joined(f, p, b).size < f[i].start
  {
    assert Aligned(f[i]);
    if i < p - 1 { assert f[i].start + f[i].size < f[p - 1].start; assert Aligned(f[p - 1]); }
    if i > p { assert f[p].start + f[p].size < f[i].start; assert Aligned(f[p]); }
  }

  lemma FreedSpaced(f: seq<Blk>, p: nat, b: Blk)
    requires AllAligned(f) && Spaced(f) && Aligned(b) && Place(f, p, b)
    ensures Spaced(Freed(f, p, b))
  {
    var s := Freed(f, p, b);
    forall i, j | 0 <= i < j < |s| ensures s[i].start + s[i].size < s[j].start {
      FreedAt(f, p, b, i);
      FreedAt(f, p, b, j);
      if i < Lo(f, p, b) { JoinedSpaced(f, p, b, i); }
      if j > Lo(f, p, b) { JoinedSpaced(f, p, b, j - Lo(f, p, b) - 1 + Hi(f, p, b)); }
    }
  }

  lemma SumBefore(f: seq<Blk>, p: nat, b: Blk)
    requires p <= |f|
    ensures TotalSize(f[..p]) == TotalSize(f[..Lo(f, p, b)]) + if JoinsBefore(f, p, b) then f[p - 1].size else 0
  {
    if JoinsBefore(f, p, b) { SumLast(f[..p]); assert f[..p][..p - 1] == f[..p - 1]; }
  }

  lemma SumAfter(f: seq<Blk>, p: nat, b: Blk)
    requires p <= |f|
    ensures TotalSize(f[p..]) == TotalSize(f[Hi(f, p, b)..]) + if JoinsAfter(f, p, b) then f[p].size else 0
  {
    if JoinsAfter(f, p, b) { assert f[p..][1..] == f[p + 1..]; }
  }

  lemma FreedSum(f: seq<Blk>, p: nat, b: Blk)
    requires p <= |f|
    ensures TotalSize(Freed(f, p, b)) == TotalSize(f) + b.size
  {
    SumAround(f[..Lo(f, p, b)], Joined(f, p, b), f[Hi(f, p, b)..]);
    SumSplit(f, p);
    SumBefore(f, p, b);
    SumAfter(f, p, b);
  }

  lemma SumSplit(f: seq<Blk>, p: nat)
    requires p <= |f|
    ensures TotalSize(f) == TotalSize(f[..p]) + TotalSize(f[p..])
  {
    SumConcat(f[..p], f[p..]);
    assert f == f[..p] + f[p..];
  }

  lemma SumLast(s: seq<Blk>)
    requires |s| > 0
    ensures TotalSize(s) == TotalSize(s[..|s| - 1]) + s[|s| - 1].size
  {
    SumSplit(s, |s| - 1);
    assert s[|s| - 1..] == [s[|s| - 1]];
    assert [s[|s| - 1]][1..] == [];
  }

  /** Free now: what was free, and the stretch. */
  lemma FreedCovers(f: seq<Blk>, p: nat, b: Blk, a: int)
    requires p <= |f|
    requires AllAligned(f) && Aligned(b)
    ensures InSome(Freed(f, p, b), a) <==> InSome(f, a) || Covers(b, a)
  {
    var lo, hi := Lo(f, p, b), Hi(f, p, b);
    InAround(f[..lo], Joined(f, p, b), f[hi..], a);
    InSplit(f, p, a);
    if JoinsBefore(f, p, b) { InSplit(f[..p], p - 1, a); assert f[..p][..p - 1] == f[..lo]; InOne(f[..p][p - 1..], a); }
    if JoinsAfter(f, p, b) { InSplit(f[p..], 1, a); assert f[p..][1..] == f[hi..]; InOne(f[p..][..1], a); }
  }

  lemma InSplit(f: seq<Blk>, p: nat, a: int)
    requires p <= |f|
    ensures InSome(f, a) <==> InSome(f[..p], a) || InSome(f[p..], a)
  {
    assert f == f[..p] + f[p..];
    InConcat(f[..p], f[p..], a);
  }

  lemma InOne(s: seq<Blk>, a: int)
    requires |s| == 1
    ensures InSome(s, a) <==> Covers(s[0], a)
  {
    if Covers(s[0], a) { assert Covers(s[0], a); }
  }

  /** Freeing a cell's space keeps the page tiled, free blocks never adjacent. */
  lemma TiledFreed(f: seq<Blk>, c1: seq<Blk>, b: Blk, c2: seq<Blk>, p: nat)
    requires Tiled(f, c1 + [b] + c2) && Place(f, p, b)
    ensures Tiled(Freed(f, p, b), c1 + c2)
  {
    AlignedAround(c1, b, c2);
    FreedAligned(f, p, b);
    FreedSpaced(f, p, b);
    FreedSum(f, p, b);
    SumAround(c1, b, c2);
    SumConcat(c1, c2);
    ApartAround(c1, b, c2);
    forall a | PAGE_HDR <= a < SQLITE_USABLE_SIZE ensures Once(Freed(f, p, b), c1 + c2, a) {
      assert Once(f, c1 + [b] + c2, a);
      FreedCovers(f, p, b, a);
      InAround(c1, b, c2, a);
      InConcat(c1, c2, a);
      if Covers(b, a) { ApartOut(c1, b, c2, a); }
    }
  }

  lemma ApartAround(c1: seq<Blk>, b: Blk, c2: seq<Blk>)
    requires Apart(c1 + [b] + c2)
    ensures Apart(c1 + c2)
  {
    var s, t := c1 + [b] + c2, c1 + c2;
    forall i, j | 0 <= i < j < |t| ensures Disjoint(t[i], t[j]) {
      assert t[i] == s[if i < |c1| then i else i + 1] && t[j] == s[if j < |c1| then j else j + 1];
    }
  }

  lemma ApartOut(c1: seq<Blk>, b: Blk, c2: seq<Blk>, a: int)
    requires Apart(c1 + [b] + c2) && Covers(b, a)
    ensures !InSome(c1, a) && !InSome(c2, a)
  {
    var s := c1 + [b] + c2;
    assert s[|c1|] == b;
    forall i | 0 <= i < |c1| ensures !Covers(c1[i], a) { assert s[i] == c1[i]; }
    forall i | 0 <= i < |c2| ensures !Covers(c2[i], a) { assert s[|c1| + 1 + i] == c2[i]; }
  }

  /** Every cell has a place among the free blocks. */
  lemma PlaceExists(f: seq<Blk>, c: seq<Blk>, j: nat, p: nat)
    requires Tiled(f, c) && j < |c| && p <= |f|
    requires forall i | 0 <= i < p :: f[i].start < c[j].start
    requires p < |f| ==> c[j].start <= f[p].start
    ensures Place(f, p, c[j])
  {
    forall i | 0 <= i < |f| ensures Disjoint(f[i], c[j]) && Aligned(f[i]) { FreeApart(f, c, i, j); }
    assert Aligned(c[j]);
    forall i | p < i < |f| ensures f[p].start < f[i].start {}
  }

  // ---------------------------------------------------------------- cells side by side

  /** The cells are stacked from address at on without gaps. */
  ghost predicate Stacked(c: seq<Blk>, at: int)
    decreases |c|
  {
    c != [] ==> c[0].start == at && c[0].size > 0 && Stacked(c[1..], at + c[0].size)
  }

  lemma {:induction false} StackedCovers(c: seq<Blk>, at: int, a: int)
    requires Stacked(c, at)
    ensures 0 <= TotalSize(c) && (InSome(c, a) <==> at <= a < at + TotalSize(c))
    decreases |c|
  {
    if c != [] {
      StackedCovers(c[1..], at + c[0].size, a);
      InSplit(c, 1, a);
      assert c[..1] == [c[0]];
      InOne([c[0]], a);
    }
  }

  lemma {:induction false} StackedApart(c: seq<Blk>, at: int)
    requires Stacked(c, at)
    ensures Apart(c) && forall i | 0 <= i < |c| :: at <= c[i].start && c[i].start + c[i].size <= at + TotalSize(c)
    decreases |c|
  {
    if c != [] {
      StackedApart(c[1..], at + c[0].size);
      StackedCovers(c[1..], at + c[0].size, 0);
      assert forall i | 0 < i < |c| :: c[i] == c[1..][i - 1];
    }
  }

  /** Stacked cells and one free block behind them tile the page. */
  lemma TiledStacked(c: seq<Blk>, n: int)
    requires Stacked(c, PAGE_HDR) && AllAligned(c) && n > 0 && n % 4 == 0 && TotalSize(c) + n == USABLE_SPACE
    ensures Tiled([Blk(SQLITE_USABLE_SIZE - n, n)], c)
  {
    var f := [Blk(SQLITE_USABLE_SIZE - n, n)];
    StackedApart(c, PAGE_HDR);
    StackedCovers(c, PAGE_HDR, 0);
    assert TotalSize(f) == n by { assert f[1..] == []; }
    forall a | PAGE_HDR <= a < SQLITE_USABLE_SIZE ensures Once(f, c, a) {
      StackedCovers(c, PAGE_HDR, a);
      InOne(f, a);
    }
  }
}

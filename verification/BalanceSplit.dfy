/** How many cells go on which page: the two-pass split at the heart of balance. */
module BalanceSplit {
  import opened FileFormat

  const MIN_CELL_SIZE := 16
  const MAX_CELL_SIZE := 252
  /** Pages that take part in one balance. */
  const NB := 3
  /** Most bytes on a page that is to be balanced: two dividers went, three came. */
  const OVERFULL := USABLE_SPACE - (NB - 1) * MIN_CELL_SIZE + NB * MAX_CELL_SIZE

  ghost predicate CellSizes(sz: seq<int>) {
    forall i | 0 <= i < |sz| :: MIN_CELL_SIZE <= sz[i] <= MAX_CELL_SIZE
  }

  /** Total size of the cells from a up to, not including, b. */
  ghost function Sum(sz: seq<int>, a: int, b: int): int
    requires 0 <= a <= b <= |sz|
    decreases b
  {
    if a == b then 0 else Sum(sz, a, b - 1) + sz[b - 1]
  }

  lemma {:induction false} SumSplit(sz: seq<int>, a: int, b: int, c: int)
    requires 0 <= a <= b <= c <= |sz|
    ensures Sum(sz, a, c) == Sum(sz, a, b) + Sum(sz, b, c)
    decreases c
  {
    if b < c { SumSplit(sz, a, b, c - 1); }
  }

  lemma SumOne(sz: seq<int>, a: int)
    requires 0 <= a < |sz|
    ensures Sum(sz, a, a + 1) == sz[a]
  {}

  lemma SumFirst(sz: seq<int>, a: int, c: int)
    requires 0 <= a < c <= |sz|
    ensures Sum(sz, a, c) == sz[a] + Sum(sz, a + 1, c)
  {
    SumSplit(sz, a, a + 1, c);
  }

  lemma {:induction false} SumBounds(sz: seq<int>, a: int, b: int)
    requires 0 <= a <= b <= |sz| && CellSizes(sz)
    ensures MIN_CELL_SIZE * (b - a) <= Sum(sz, a, b)
    decreases b
  {
    if a < b { SumBounds(sz, a, b - 1); }
  }

  /** The first cell of page i, when cnt[i] is the cell after it. */
  function Start(cnt: seq<int>, i: int): int
    requires 0 <= i < |cnt|
  {
    if i == 0 then 0 else cnt[i - 1] + 1
  }

  ghost predicate InRange(sz: seq<int>, cnt: seq<int>, i: int) {
    0 <= i < |cnt| && 0 <= Start(cnt, i) <= cnt[i] <= |sz|
  }

  ghost function PageSum(sz: seq<int>, cnt: seq<int>, i: int): int
    requires InRange(sz, cnt, i)
  {
    Sum(sz, Start(cnt, i), cnt[i])
  }

  /** After the first pass: every page but the last was closed by a cell that did not fit. */
  ghost predicate Greedy(sz: seq<int>, cnt: seq<int>) {
    && |cnt| >= 1 && cnt[|cnt| - 1] == |sz|
    && (forall i | 0 <= i < |cnt| - 1 :: ClosedAt(sz, cnt, i))
    && InRange(sz, cnt, |cnt| - 1) && PageSum(sz, cnt, |cnt| - 1) <= USABLE_SPACE
  }

  /** Page i holds what fits, and the cell after it did not fit. */
  ghost predicate ClosedAt(sz: seq<int>, cnt: seq<int>, i: int) {
    && InRange(sz, cnt, i) && PageSum(sz, cnt, i) <= USABLE_SPACE
    && cnt[i] < |sz| && PageSum(sz, cnt, i) + sz[cnt[i]] > USABLE_SPACE
  }

  /** What balance needs of the split: every page gets a cell, and no page too many bytes. */
  ghost predicate Fits(sz: seq<int>, cnt: seq<int>) {
    && |cnt| >= 1 && cnt[|cnt| - 1] == |sz|
    && forall i | 0 <= i < |cnt| :: PageFits(sz, cnt, i)
  }

  ghost predicate PageFits(sz: seq<int>, cnt: seq<int>, i: int) {
    InRange(sz, cnt, i) && Start(cnt, i) < cnt[i] && PageSum(sz, cnt, i) <= USABLE_SPACE
  }

  /** The estimate of page i while its left boundary moves from l0 to l; r0 and r bound it on the right. */
  ghost function Estimate(sz: seq<int>, l0: int, l: int, r0: int, r: int): int
    requires 0 <= l <= l0 + 1 && l0 + 1 <= r <= r0 <= |sz| && 0 < r
  {
    Sum(sz, l0 + 1, r) + (if l <= l0 then Sum(sz, l, l0) else 0) + sz[r0 - 1] - sz[r - 1]
  }

  // ---------------------------------------------------------------- first pass

  /** Pages closed so far. */
  ghost predicate Closed(sz: seq<int>, cnt: seq<int>) {
    forall i | 0 <= i < |cnt| :: ClosedAt(sz, cnt, i)
  }

  function NextStart(cnt: seq<int>): int {
    StartAt(cnt, |cnt|)
  }

  function StartAt(cnt: seq<int>, i: nat): int
    requires i <= |cnt|
  {
    if i == 0 then 0 else cnt[i - 1] + 1
  }

  /** However the cells are dealt out page by page, fewer than n pages are closed. */
  ghost predicate Room(sz: seq<int>, n: int) {
    forall cnt :: Closed(sz, cnt) ==> |cnt| < n
  }

  /** Every closed page and its divider exceed a page. */
  lemma {:induction false} ClosedSpan(sz: seq<int>, cnt: seq<int>, i: nat, j: nat)
    requires CellSizes(sz) && Closed(sz, cnt) && i <= j <= |cnt|
    ensures 0 <= StartAt(cnt, i) <= StartAt(cnt, j) <= |sz|
    ensures (USABLE_SPACE + 1) * (j - i) <= Sum(sz, StartAt(cnt, i), StartAt(cnt, j))
    decreases j
  {
    if i < j {
      ClosedSpan(sz, cnt, i, j - 1);
      assert ClosedAt(sz, cnt, j - 1);
      SumSplit(sz, StartAt(cnt, i), StartAt(cnt, j - 1), cnt[j - 1]);
    } else if i > 0 {
      assert ClosedAt(sz, cnt, i - 1);
    }
  }

  /** A page is not closed before a stretch of cells that fits. */
  lemma ClosedAfter(sz: seq<int>, cnt: seq<int>, i: nat, b: nat)
    requires CellSizes(sz) && Closed(sz, cnt) && i < |cnt| && 0 <= StartAt(cnt, i) <= b <= |sz|
    requires Sum(sz, StartAt(cnt, i), b) <= USABLE_SPACE
    ensures StartAt(cnt, i + 1) > b
  {
    assert ClosedAt(sz, cnt, i);
    if cnt[i] < b {
      SumSplit(sz, StartAt(cnt, i), cnt[i] + 1, b);
      SumBounds(sz, cnt[i] + 1, b);
    }
  }

  ghost predicate SizeAt(sz: seq<int>, cnt: seq<int>, szNew: seq<int>, i: int) {
    i < |szNew| && InRange(sz, cnt, i) && szNew[i] == PageSum(sz, cnt, i)
  }

  ghost predicate SizesOf(sz: seq<int>, cnt: seq<int>, szNew: seq<int>) {
    |szNew| == |cnt| && forall i | 0 <= i < |cnt| :: SizeAt(sz, cnt, szNew, i)
  }

  /** The state of the first pass before cell i. */
  ghost predicate Filling(sz: seq<int>, cnt: seq<int>, szNew: seq<int>, i: int, subtotal: int) {
    && Closed(sz, cnt) && SizesOf(sz, cnt, szNew)
    && 0 <= NextStart(cnt) <= i <= |sz| && subtotal == Sum(sz, NextStart(cnt), i) <= USABLE_SPACE
  }

  lemma Push(sz: seq<int>, cnt: seq<int>, szNew: seq<int>, c: int, x: int)
    requires SizesOf(sz, cnt, szNew) && 0 <= NextStart(cnt) <= c <= |sz| && x == Sum(sz, NextStart(cnt), c)
    ensures SizesOf(sz, cnt + [c], szNew + [x])
    ensures forall i | 0 <= i < |cnt| && ClosedAt(sz, cnt, i) :: ClosedAt(sz, cnt + [c], i)
    ensures InRange(sz, cnt + [c], |cnt|) && PageSum(sz, cnt + [c], |cnt|) == x
  {
    var cnt' := cnt + [c];
    assert forall i | 0 <= i < |cnt| :: Start(cnt', i) == Start(cnt, i) && cnt'[i] == cnt[i];
    forall i | 0 <= i < |cnt'| ensures SizeAt(sz, cnt', szNew + [x], i) {
      if i < |cnt| { assert SizeAt(sz, cnt, szNew, i); }
    }
  }

  /** A cell that does not fit closes the page and becomes the divider. */
  lemma FillingCloses(sz: seq<int>, cnt: seq<int>, szNew: seq<int>, i: int, subtotal: int)
    requires Filling(sz, cnt, szNew, i, subtotal) && i < |sz| && subtotal + sz[i] > USABLE_SPACE
    ensures Filling(sz, cnt + [i], szNew + [subtotal], i + 1, 0)
  {
    Push(sz, cnt, szNew, i, subtotal);
    assert ClosedAt(sz, cnt + [i], |cnt|);
    SumSplit(sz, 0, NextStart(cnt), i + 1);
  }

  lemma FillingEnds(sz: seq<int>, cnt: seq<int>, szNew: seq<int>, subtotal: int)
    requires Filling(sz, cnt, szNew, |sz|, subtotal)
    ensures Greedy(sz, cnt + [|sz|]) && SizesOf(sz, cnt + [|sz|], szNew + [subtotal])
  {
    Push(sz, cnt, szNew, |sz|, subtotal);
    forall i | 0 <= i < |cnt| ensures ClosedAt(sz, cnt + [|sz|], i) {
      assert ClosedAt(sz, cnt, i);
    }
  }

  /** The first pass of balance's split: fills page after page. */
  method FirstPass(szCell: seq<int>, cntNew: array<int>, szNew: array<int>) returns (k: int)
    requires |szCell| >= 1 && CellSizes(szCell) && cntNew != szNew && cntNew.Length == szNew.Length >= 1
    requires Room(szCell, cntNew.Length)
    modifies cntNew, szNew
    ensures 1 <= k <= cntNew.Length && Greedy(szCell, cntNew[..k]) && SizesOf(szCell, cntNew[..k], szNew[..k])
  {
    var subtotal, i := 0, 0;
    k := 0;
    ghost var cnt, szs := [], [];
    while i < |szCell|
      invariant 0 <= k < cntNew.Length && cntNew[..k] == cnt && szNew[..k] == szs
      invariant Filling(szCell, cnt, szs, i, subtotal)
    {
      subtotal := subtotal + szCell[i];
      if subtotal > USABLE_SPACE {
        FillingCloses(szCell, cnt, szs, i, subtotal - szCell[i]);
        cnt, szs := cnt + [i], szs + [subtotal - szCell[i]];
        szNew[k] := subtotal - szCell[i];
        cntNew[k] := i;
        subtotal := 0;
        k := k + 1;
      }
      i := i + 1;
    }
    FillingEnds(szCell, cnt, szs, subtotal);
    szNew[k] := subtotal;
    cntNew[k] := |szCell|;
    k := k + 1;
    assert cntNew[..k] == cnt + [|szCell|] && szNew[..k] == szs + [subtotal];
  }

  // ---------------------------------------------------------------- second pass

  /** There is always another cell to take: page i - 1 is nearly full while page i is under half. */
  lemma RoomOnTheLeft(sz: seq<int>, p: int, l0: int, l: int, r0: int, r: int)
    requires CellSizes(sz) && 0 <= p < l <= l0 < |sz| && l0 + 1 <= r <= r0 <= |sz|
    requires Sum(sz, p, l0) + sz[l0] > USABLE_SPACE
    requires r < r0 ==> l0 + 2 <= r
    requires Estimate(sz, l0, l, r0, r) < USABLE_SPACE / 2
    ensures p < l - 1
  {
    SumSplit(sz, p, l, l0);
    SumBounds(sz, l0 + 1, r);
    if r < r0 {
      SumSplit(sz, l0 + 1, r - 1, r);
      SumBounds(sz, l0 + 1, r - 1);
    }
    SumOne(sz, p);
  }

  /** However far the estimate drifted, the true size of a filled page is within the page. */
  lemma DriftIsHarmless(sz: seq<int>, l0: int, l: int, r0: int, r: int)
    requires CellSizes(sz) && 0 <= l < l0 < |sz| && l0 + 1 <= r <= r0 <= |sz|
    requires Estimate(sz, l0, l + 1, r0, r) < USABLE_SPACE / 2
    ensures Sum(sz, l + 1, r) <= USABLE_SPACE
  {
    SumSplit(sz, l + 1, l0, r);
    SumFirst(sz, l0, r);
  }

  /** One step of the second pass moves both estimates by the code's own reads. */
  lemma EstimateStep(sz: seq<int>, l0: int, l: int, r0: int, r: int)
    requires 0 < l <= l0 && l0 + 1 <= r <= r0 <= |sz|
    ensures Estimate(sz, l0, l - 1, r0, r) == Estimate(sz, l0, l, r0, r) + sz[l - 1]
  {
    SumFirst(sz, l - 1, l0);
  }

  /** What is left on page i - 1 is that page's estimate when its own turn comes. */
  lemma EstimateHandedOn(sz: seq<int>, p0: int, l0: int, l: int)
    requires 0 <= p0 + 1 < l <= l0 <= |sz| && 0 <= p0 + 1
    ensures Sum(sz, p0 + 1, l0) - Sum(sz, l - 1, l0 - 1) == Estimate(sz, p0, p0 + 1, l0, l)
  {
    SumSplit(sz, p0 + 1, l, l0);
    SumSplit(sz, l - 1, l, l0);
    if l < l0 {
      SumSplit(sz, l - 1, l0 - 1, l0);
    }
    assert Sum(sz, l - 1, l) == sz[l - 1];
  }

  /** Boundaries and sizes of the pages below i are those of the first pass. */
  ghost predicate Untouched(sz: seq<int>, cnt0: seq<int>, cnt: seq<int>, szNew: seq<int>, i: int)
    requires i <= |cnt| == |cnt0|
  {
    forall j | 0 <= j < i :: cnt[j] == cnt0[j] && SizeAt(sz, cnt0, szNew, j)
  }

  ghost predicate Done(sz: seq<int>, cnt: seq<int>, i: int) {
    forall j | i < j < |cnt| :: PageFits(sz, cnt, j)
  }

  /** The second pass before page i is filled: pages above i are done, pages below untouched. */
  ghost predicate Shifting(sz: seq<int>, cnt0: seq<int>, cnt: seq<int>, szNew: seq<int>, i: int) {
    && |cnt| == |cnt0| == |szNew| && 0 <= i < |cnt|
    && Untouched(sz, cnt0, cnt, szNew, i)
    && Pending(sz, cnt0, cnt[i], szNew[i], i)
    && Done(sz, cnt, i) && cnt[|cnt| - 1] == |sz|
  }

  /** Page i with its right boundary moved from cnt0[i] to r, and the estimate the code keeps for it. */
  ghost predicate Pending(sz: seq<int>, cnt0: seq<int>, r: int, est: int, i: int) {
    && 0 <= i < |cnt0| && InRange(sz, cnt0, i)
    && Start(cnt0, i) <= r <= cnt0[i] && 0 < r && (r < cnt0[i] || i < |cnt0| - 1 ==> Start(cnt0, i) < r)
    && est == Estimate(sz, Start(cnt0, i) - 1, Start(cnt0, i), cnt0[i], r)
  }

  /** While page i takes cells: its left boundary has come down to l. */
  ghost predicate Taking(sz: seq<int>, cnt0: seq<int>, cnt: seq<int>, szNew: seq<int>, i: int, l: int) {
    && |cnt| == |cnt0| == |szNew| && 0 < i < |cnt|
    && Untouched(sz, cnt0, cnt, szNew, i - 1)
    && InRange(sz, cnt0, i - 1) && InRange(sz, cnt0, i)
    && var l0, r0 := cnt0[i - 1], cnt0[i];
    && cnt[i - 1] == l && Start(cnt0, i - 1) < l <= l0
    && l0 + 1 <= cnt[i] <= r0 && (cnt[i] < r0 || i < |cnt| - 1 ==> l0 + 2 <= cnt[i]) && 0 < cnt[i]
    && szNew[i] == Estimate(sz, l0, l, r0, cnt[i])
    && szNew[i - 1] == PageSum(sz, cnt0, i - 1) - Sum(sz, l - 1, l0 - 1)
    && (l < l0 ==> Estimate(sz, l0, l + 1, r0, cnt[i]) < USABLE_SPACE / 2)
    && Done(sz, cnt, i) && cnt[|cnt| - 1] == |sz|
  }

  lemma TakingStarts(sz: seq<int>, cnt0: seq<int>, cnt: seq<int>, szNew: seq<int>, i: int)
    requires CellSizes(sz) && Greedy(sz, cnt0) && Shifting(sz, cnt0, cnt, szNew, i) && i > 0
    ensures Taking(sz, cnt0, cnt, szNew, i, cnt[i - 1])
  {
    assert ClosedAt(sz, cnt0, i - 1);
    assert SizeAt(sz, cnt0, szNew, i - 1);
    if cnt0[i - 1] == Start(cnt0, i - 1) {
      assert false;
    }
  }

  lemma OthersKept(sz: seq<int>, cnt0: seq<int>, cnt: seq<int>, szNew: seq<int>, i: int, cnt': seq<int>, szNew': seq<int>)
    requires |cnt| == |cnt0| == |szNew| == |cnt'| == |szNew'| && 0 < i < |cnt|
    requires Untouched(sz, cnt0, cnt, szNew, i - 1) && Done(sz, cnt, i)
    requires forall j | 0 <= j < |cnt| && j != i - 1 :: cnt'[j] == cnt[j]
    requires forall j | 0 <= j < |cnt| && j != i - 1 && j != i :: szNew'[j] == szNew[j]
    ensures Untouched(sz, cnt0, cnt', szNew', i - 1) && Done(sz, cnt', i)
  {
    forall j | 0 <= j < i - 1 ensures cnt'[j] == cnt0[j] && SizeAt(sz, cnt0, szNew', j) {
      assert SizeAt(sz, cnt0, szNew, j);
    }
    forall j | i < j < |cnt| ensures PageFits(sz, cnt', j) {
      assert PageFits(sz, cnt, j);
    }
  }

  lemma TakingSteps(sz: seq<int>, cnt0: seq<int>, cnt: seq<int>, szNew: seq<int>, i: int, l: int)
    requires CellSizes(sz) && Greedy(sz, cnt0) && Taking(sz, cnt0, cnt, szNew, i, l)
    requires szNew[i] < USABLE_SPACE / 2
    ensures 1 < l <= |sz|
    ensures Taking(sz, cnt0, cnt[i - 1 := l - 1],
              szNew[i := szNew[i] + sz[l - 1]][i - 1 := szNew[i - 1] - sz[l - 2]], i, l - 1)
  {
    var l0, r0 := cnt0[i - 1], cnt0[i];
    assert ClosedAt(sz, cnt0, i - 1);
    RoomOnTheLeft(sz, Start(cnt0, i - 1), l0, l, r0, cnt[i]);
    EstimateStep(sz, l0, l, r0, cnt[i]);
    SumFirst(sz, l - 2, l0 - 1);
    var cnt', szNew' := cnt[i - 1 := l - 1], szNew[i := szNew[i] + sz[l - 1]][i - 1 := szNew[i - 1] - sz[l - 2]];
    assert cnt'[i] == cnt[i] && cnt'[|cnt| - 1] == cnt[|cnt| - 1] && cnt'[i - 1] == l - 1;
    assert szNew'[i] == szNew[i] + sz[l - 1] && szNew'[i - 1] == szNew[i - 1] - sz[l - 2];
    OthersKept(sz, cnt0, cnt, szNew, i, cnt', szNew');
  }

  lemma TakingEnds(sz: seq<int>, cnt0: seq<int>, cnt: seq<int>, szNew: seq<int>, i: int, l: int)
    requires CellSizes(sz) && Greedy(sz, cnt0) && Taking(sz, cnt0, cnt, szNew, i, l)
    requires szNew[i] >= USABLE_SPACE / 2
    ensures Shifting(sz, cnt0, cnt, szNew, i - 1)
  {
    var l0, r0 := cnt0[i - 1], cnt0[i];
    assert PageFits(sz, cnt, i) by {
      if l < l0 {
        DriftIsHarmless(sz, l0, l, r0, cnt[i]);
      } else {
        WholePage(sz, cnt0, i, cnt[i]);
      }
    }
    EstimateHandedOn(sz, Start(cnt0, i - 1) - 1, l0, l);
  }

  lemma WholePage(sz: seq<int>, cnt0: seq<int>, i: int, r: int)
    requires CellSizes(sz) && Greedy(sz, cnt0) && 0 <= i < |cnt0| && Start(cnt0, i) <= r <= cnt0[i] && 0 <= Start(cnt0, i)
    ensures InRange(sz, cnt0, i) && Sum(sz, Start(cnt0, i), r) <= USABLE_SPACE
  {
    if i < |cnt0| - 1 { assert ClosedAt(sz, cnt0, i); }
    SumSplit(sz, Start(cnt0, i), r, cnt0[i]);
    SumBounds(sz, r, cnt0[i]);
  }

  lemma ShiftingStarts(sz: seq<int>, cnt0: seq<int>, szNew: seq<int>)
    requires |sz| >= 1 && Greedy(sz, cnt0) && SizesOf(sz, cnt0, szNew)
    ensures Shifting(sz, cnt0, cnt0, szNew, |cnt0| - 1)
  {
    assert SizeAt(sz, cnt0, szNew, |cnt0| - 1);
  }

  lemma ShiftingEnds(sz: seq<int>, cnt0: seq<int>, cnt: seq<int>, szNew: seq<int>)
    requires |sz| >= 1 && CellSizes(sz) && Greedy(sz, cnt0) && Shifting(sz, cnt0, cnt, szNew, 0)
    ensures Fits(sz, cnt)
  {
    WholePage(sz, cnt0, 0, cnt[0]);
    forall i | 0 <= i < |cnt| ensures PageFits(sz, cnt, i) {}
  }

  /** The inner loop of the second pass: page i takes cells from page i - 1 until its estimate is half a page. */
  method TakeCells(szCell: seq<int>, cntNew: array<int>, szNew: array<int>, i: int,
                   ghost k: int, ghost cnt0: seq<int>)
    requires CellSizes(szCell) && Greedy(szCell, cnt0) && cntNew != szNew
    requires 0 < i < k <= cntNew.Length == szNew.Length && |cnt0| == k
    requires Shifting(szCell, cnt0, cntNew[..k], szNew[..k], i)
    modifies cntNew, szNew
    ensures Shifting(szCell, cnt0, cntNew[..k], szNew[..k], i - 1)
  {
    ghost var cnt, szs := cntNew[..k], szNew[..k];
    TakingStarts(szCell, cnt0, cnt, szs, i);
    while szNew[i] < USABLE_SPACE / 2
      invariant cntNew[..k] == cnt && szNew[..k] == szs && |cnt| == k && |szs| == k
      invariant Taking(szCell, cnt0, cnt, szs, i, cnt[i - 1])
      decreases cnt[i - 1]
    {
      TakeOne(szCell, cntNew, szNew, i, k, cnt0, cnt, szs);
      szs := szs[i := szs[i] + szCell[cnt[i - 1] - 1]][i - 1 := szs[i - 1] - szCell[cnt[i - 1] - 2]];
      cnt := cnt[i - 1 := cnt[i - 1] - 1];
    }
    TakingEnds(szCell, cnt0, cnt, szs, i, cnt[i - 1]);
  }

  /** One cell: the code adds, and subtracts, the sizes one cell to the left of what really moves. */
  method TakeOne(szCell: seq<int>, cntNew: array<int>, szNew: array<int>, i: int,
                 ghost k: int, ghost cnt0: seq<int>, ghost cnt: seq<int>, ghost szs: seq<int>)
    requires CellSizes(szCell) && Greedy(szCell, cnt0) && cntNew != szNew
    requires 0 < i < k <= cntNew.Length == szNew.Length && |cnt0| == |cnt| == |szs| == k
    requires cntNew[..k] == cnt && szNew[..k] == szs
    requires Taking(szCell, cnt0, cnt, szs, i, cnt[i - 1]) && szs[i] < USABLE_SPACE / 2
    modifies cntNew, szNew
    ensures var l := cnt[i - 1];
      && 1 < l <= |szCell|
      && cntNew[..k] == cnt[i - 1 := l - 1]
      && szNew[..k] == szs[i := szs[i] + szCell[l - 1]][i - 1 := szs[i - 1] - szCell[l - 2]]
      && Taking(szCell, cnt0, cntNew[..k], szNew[..k], i, l - 1)
  {
    ghost var l := cnt[i - 1];
    TakingSteps(szCell, cnt0, cnt, szs, i, l);
    assert cntNew[i - 1] == l && szNew[i] == szs[i] && szNew[i - 1] == szs[i - 1];
    cntNew[i - 1] := cntNew[i - 1] - 1;
    assert cntNew[i - 1] > 0;
    szNew[i] := szNew[i] + szCell[cntNew[i - 1]];
    szNew[i - 1] := szNew[i - 1] - szCell[cntNew[i - 1] - 1];
    assert cntNew[..k] == cnt[i - 1 := l - 1];
    assert szNew[..k] == szs[i := szs[i] + szCell[l - 1]][i - 1 := szs[i - 1] - szCell[l - 2]];
  }

  /** The second pass, from the last page down to the second. */
  method SecondPass(szCell: seq<int>, cntNew: array<int>, szNew: array<int>, k: int, ghost cnt0: seq<int>)
    requires CellSizes(szCell) && cntNew != szNew && 1 <= k <= cntNew.Length == szNew.Length
    requires Greedy(szCell, cnt0) && |cnt0| == k && Shifting(szCell, cnt0, cntNew[..k], szNew[..k], k - 1)
    modifies cntNew, szNew
    ensures Shifting(szCell, cnt0, cntNew[..k], szNew[..k], 0)
  {
    var i := k - 1;
    while i > 0
      invariant 0 <= i < k && Shifting(szCell, cnt0, cntNew[..k], szNew[..k], i)
    {
      TakeCells(szCell, cntNew, szNew, i, k, cnt0);
      i := i - 1;
    }
  }

  /**
   * The whole split. Every page ends up with at least one cell and at most a page of bytes,
   * although the sizes the second pass keeps in szNew are only estimates.
   */
  method SplitCells(szCell: seq<int>, cntNew: array<int>, szNew: array<int>) returns (k: int)
    requires |szCell| >= 1 && CellSizes(szCell) && cntNew != szNew && cntNew.Length == szNew.Length >= 1
    requires Room(szCell, cntNew.Length)
    modifies cntNew, szNew
    ensures 1 <= k <= cntNew.Length && Fits(szCell, cntNew[..k])
    ensures forall n | Room(szCell, n) :: k <= n
    ensures (USABLE_SPACE + 1) * (k - 1) <= Sum(szCell, 0, |szCell|)
  {
    k := FirstPass(szCell, cntNew, szNew);
    ghost var cnt0 := cntNew[..k];
    PageCount(szCell, cnt0);
    ShiftingStarts(szCell, cnt0, szNew[..k]);
    SecondPass(szCell, cntNew, szNew, k, cnt0);
    ShiftingEnds(szCell, cnt0, cntNew[..k], szNew[..k]);
  }

  /** k pages need more than k - 1 pages' worth of bytes, and no more pages than there is room for. */
  lemma PageCount(sz: seq<int>, cnt: seq<int>)
    requires CellSizes(sz) && Greedy(sz, cnt)
    ensures (USABLE_SPACE + 1) * (|cnt| - 1) <= Sum(sz, 0, |sz|)
    ensures forall n | Room(sz, n) :: |cnt| <= n
    ensures Sum(sz, 0, |sz|) <= (NB + 1) * USABLE_SPACE ==> |cnt| <= NB + 1
  {
    var closed := cnt[..|cnt| - 1];
    forall i | 0 <= i < |closed| ensures ClosedAt(sz, closed, i) {
      assert ClosedAt(sz, cnt, i);
    }
    assert Closed(sz, closed);
    ClosedSpan(sz, closed, 0, |closed|);
    SumSplit(sz, 0, NextStart(closed), |sz|);
    SumBounds(sz, NextStart(closed), |sz|);
  }

  // ---------------------------------------------------------------- balance's arrays of NB + 1 pages suffice

  /** Bytes on a page that takes part: one page may be overfull. */
  predicate Bytes3(a: int, b: int, c: int) {
    && a <= OVERFULL && b <= OVERFULL && c <= OVERFULL
    && (a <= USABLE_SPACE || b <= USABLE_SPACE) && (a <= USABLE_SPACE || c <= USABLE_SPACE) && (b <= USABLE_SPACE || c <= USABLE_SPACE)
  }

  /** n pages are enough for n pages' worth of bytes. */
  lemma RoomInTotal(sz: seq<int>, n: int)
    requires CellSizes(sz) && n >= 1 && Sum(sz, 0, |sz|) <= n * USABLE_SPACE
    ensures Room(sz, n)
  {
    forall cnt | Closed(sz, cnt) ensures |cnt| < n { ClosedInTotal(sz, cnt, 0); }
  }

  /** One overfull page becomes two at most. */
  lemma RoomOfOne(sz: seq<int>)
    requires CellSizes(sz) && Sum(sz, 0, |sz|) <= OVERFULL
    ensures Room(sz, 2)
  {
    forall cnt | Closed(sz, cnt) ensures |cnt| < 2 { ClosedInTotal(sz, cnt, 0); }
  }

  /** Two pages, one of them overfull, and their divider become three at most. */
  lemma RoomOfTwo(sz: seq<int>, a: nat)
    requires CellSizes(sz) && a < |sz|
    requires Sum(sz, 0, a) + Sum(sz, a + 1, |sz|) <= OVERFULL + USABLE_SPACE
    ensures Room(sz, 3)
  {
    SumSplit(sz, 0, a, |sz|);
    SumFirst(sz, a, |sz|);
    forall cnt | Closed(sz, cnt) ensures |cnt| < 3 { ClosedInTotal(sz, cnt, 0); }
  }

  lemma ClosedInTotal(sz: seq<int>, cnt: seq<int>, i: nat)
    requires CellSizes(sz) && Closed(sz, cnt) && i <= |cnt|
    ensures 0 <= StartAt(cnt, i) <= |sz| && (USABLE_SPACE + 1) * (|cnt| - i) <= Sum(sz, StartAt(cnt, i), |sz|)
  {
    ClosedSpan(sz, cnt, i, |cnt|);
    SumSplit(sz, StartAt(cnt, i), StartAt(cnt, |cnt|), |sz|);
    SumBounds(sz, StartAt(cnt, |cnt|), |sz|);
  }

  /**
   * Three pages, one of them overfull, and their dividers become four at most, although together they may
   * hold more than four pages' worth of bytes: the pages closed end no sooner than the old ones that fit.
   */
  lemma RoomOfThree(sz: seq<int>, a: nat, b: nat)
    requires CellSizes(sz) && a < b < |sz| && Bytes3(Sum(sz, 0, a), Sum(sz, a + 1, b), Sum(sz, b + 1, |sz|))
    ensures Room(sz, 4)
  {
    forall cnt | Closed(sz, cnt) ensures |cnt| < 4 {
      if |cnt| >= 4 {
        if Sum(sz, 0, a) > USABLE_SPACE {
          LeftOverfull(sz, cnt, a, b);
        } else if Sum(sz, a + 1, b) > USABLE_SPACE {
          MiddleOverfull(sz, cnt, a, b);
        } else {
          RightOverfull(sz, cnt, a, b);
        }
      }
    }
  }

  lemma LeftOverfull(sz: seq<int>, cnt: seq<int>, a: nat, b: nat)
    requires CellSizes(sz) && a < b < |sz| && Closed(sz, cnt)
    requires Sum(sz, 0, a) <= OVERFULL && Sum(sz, a + 1, b) <= USABLE_SPACE && Sum(sz, b + 1, |sz|) <= USABLE_SPACE
    ensures |cnt| < 4
  {
    if |cnt| >= 4 {
      ClosedSpan(sz, cnt, 0, 3);
      ClosedInTotal(sz, cnt, 3);
      var p := StartAt(cnt, 3);
      if p <= b {
        SumSplit(sz, 0, p, b);
        SumBounds(sz, p, b);
        SumSplit(sz, 0, a, b);
        SumFirst(sz, a, b);
      } else {
        SumSplit(sz, b + 1, p, |sz|);
        SumBounds(sz, b + 1, p);
      }
    }
  }

  lemma MiddleOverfull(sz: seq<int>, cnt: seq<int>, a: nat, b: nat)
    requires CellSizes(sz) && a < b < |sz| && Closed(sz, cnt)
    requires Sum(sz, 0, a) <= USABLE_SPACE && Sum(sz, a + 1, b) <= OVERFULL && Sum(sz, b + 1, |sz|) <= USABLE_SPACE
    ensures |cnt| < 4
  {
    if |cnt| >= 4 {
      ClosedAfter(sz, cnt, 0, a);
      ClosedInTotal(sz, cnt, 1);
      var p := StartAt(cnt, 1);
      SumSplit(sz, a + 1, p, |sz|);
      SumBounds(sz, a + 1, p);
      SumSplit(sz, a + 1, b, |sz|);
      SumFirst(sz, b, |sz|);
    }
  }

  lemma RightOverfull(sz: seq<int>, cnt: seq<int>, a: nat, b: nat)
    requires CellSizes(sz) && a < b < |sz| && Closed(sz, cnt)
    requires Sum(sz, 0, a) <= USABLE_SPACE && Sum(sz, a + 1, b) <= USABLE_SPACE && Sum(sz, b + 1, |sz|) <= OVERFULL
    ensures |cnt| < 4
  {
    if |cnt| >= 4 {
      ClosedAfter(sz, cnt, 0, a);
      ClosedSpan(sz, cnt, 1, 2);
      var p := StartAt(cnt, 1);
      if p <= b {
        SumSplit(sz, a + 1, p, b);
        SumBounds(sz, a + 1, p);
        ClosedAfter(sz, cnt, 1, b);
      }
      ClosedInTotal(sz, cnt, 2);
      var q := StartAt(cnt, 2);
      SumSplit(sz, b + 1, q, |sz|);
      SumBounds(sz, b + 1, q);
    }
  }
}

/**
 * What a feeder does to the table and to its own children inside a transaction, one job at a time, and what a batch of
 * starts amounts to.
 */
module JobMoves {

  import opened Wrappers
  import opened JobTable

  /** @children: the record of each running child, by process number. */
  type Children = map<Cid, Child>

  datatype Child = Child(jid: Jid, job: Job)

  datatype Move =
    | Start(jid: Jid, cid: Cid, now: Time)
    | Finish(cid: Cid, now: Time, status: Option<int>)

  /** The table and one feeder's children. */
  datatype Desk = Desk(jobs: Table, children: Children)

  predicate Busy(children: Children, maxFeed: int) {
    |children| >= maxFeed
  }

  ghost predicate CanMove(d: Desk, name: HostName, maxFeed: int, m: Move) {
    match m
    case Start(jid, cid, now) => !Busy(d.children, maxFeed) && cid !in d.children && IsNext(d.jobs, name, jid)
    case Finish(cid, now, status) => cid in d.children
  }

  ghost function Moved(d: Desk, name: HostName, maxFeed: int, m: Move): Desk
    requires CanMove(d, name, maxFeed, m)
  {
    match m
    case Start(jid, cid, now) =>
      var job := StartedRow(d.jobs[jid], name, now, cid);
      Desk(d.jobs[jid := job], d.children[cid := Child(jid, job)])
    case Finish(cid, now, status) =>
      var child := d.children[cid];
      Desk(Done(d.jobs, child.jid, FinishedRow(child.job, now, status)), d.children - {cid})
  }

  ghost predicate CanAll(d: Desk, name: HostName, maxFeed: int, moves: seq<Move>)
    decreases |moves|
  {
    moves == [] ||
    (CanMove(d, name, maxFeed, moves[0]) && CanAll(Moved(d, name, maxFeed, moves[0]), name, maxFeed, moves[1..]))
  }

  ghost function MovedAll(d: Desk, name: HostName, maxFeed: int, moves: seq<Move>): Desk
    requires CanAll(d, name, maxFeed, moves)
    decreases |moves|
  {
    if moves == [] then d else MovedAll(Moved(d, name, maxFeed, moves[0]), name, maxFeed, moves[1..])
  }

  /** Moves one after the other lead from d to d2. */
  ghost predicate Leads(d: Desk, name: HostName, maxFeed: int, moves: seq<Move>, d2: Desk) {
    CanAll(d, name, maxFeed, moves) && MovedAll(d, name, maxFeed, moves) == d2
  }

  lemma {:induction false} LeadsOn(d: Desk, name: HostName, maxFeed: int, a: seq<Move>, d1: Desk, b: seq<Move>, d2: Desk)
    requires Leads(d, name, maxFeed, a, d1) && Leads(d1, name, maxFeed, b, d2)
    ensures Leads(d, name, maxFeed, a + b, d2)
    decreases |a|
  {
    if a == [] {
      assert a + b == b;
    } else {
      assert (a + b)[1..] == a[1..] + b;
      LeadsOn(Moved(d, name, maxFeed, a[0]), name, maxFeed, a[1..], d1, b, d2);
    }
  }

  lemma LeadsOne(d: Desk, name: HostName, maxFeed: int, m: Move)
    requires CanMove(d, name, maxFeed, m)
    ensures Leads(d, name, maxFeed, [m], Moved(d, name, maxFeed, m))
  {
    var d1 := Moved(d, name, maxFeed, m);
    assert Leads(d1, name, maxFeed, [], d1);
    assert [m][1..] == [];
  }

  /** The clock is read once a move and never goes back. */
  ghost predicate Timed(clock: Time, moves: seq<Move>)
    decreases |moves|
  {
    moves == [] || (clock <= moves[0].now && Timed(moves[0].now, moves[1..]))
  }

  ghost function LastTime(clock: Time, moves: seq<Move>): Time {
    if moves == [] then clock else moves[|moves| - 1].now
  }

  lemma {:induction false} TimedOn(clock: Time, a: seq<Move>, b: seq<Move>)
    requires Timed(clock, a) && Timed(LastTime(clock, a), b)
    ensures Timed(clock, a + b) && LastTime(clock, a + b) == LastTime(LastTime(clock, a), b)
    decreases |a|
  {
    if a == [] {
      assert a + b == b;
    } else {
      assert (a + b)[1..] == a[1..] + b;
      TimedOn(a[0].now, a[1..], b);
    }
  }

  // ---- the feeder's limit

  predicate Within(children: Children, maxFeed: int) {
    |children| <= maxFeed || children == map[]
  }

  lemma WithoutOne(children: Children, cid: Cid)
    requires cid in children
    ensures |children - {cid}| == |children| - 1
  {
    assert children == (children - {cid})[cid := children[cid]];
  }

  lemma MoveStaysWithin(d: Desk, name: HostName, maxFeed: int, m: Move)
    requires CanMove(d, name, maxFeed, m) && Within(d.children, maxFeed)
    ensures Within(Moved(d, name, maxFeed, m).children, maxFeed)
  {
    if m.Finish? {
      WithoutOne(d.children, m.cid);
    }
  }

  /** A feeder never holds more than max_feed jobs, whatever it starts and reaps in whatever order. */
  lemma {:induction false} NeverMoreThanMaxFeed(d: Desk, name: HostName, maxFeed: int, moves: seq<Move>, k: nat)
    requires CanAll(d, name, maxFeed, moves) && Within(d.children, maxFeed) && k <= |moves|
    ensures CanAll(d, name, maxFeed, moves[..k])
    ensures Within(MovedAll(d, name, maxFeed, moves[..k]).children, maxFeed)
    decreases k
  {
    if k > 0 {
      MoveStaysWithin(d, name, maxFeed, moves[0]);
      NeverMoreThanMaxFeed(Moved(d, name, maxFeed, moves[0]), name, maxFeed, moves[1..], k - 1);
      assert moves[..k][1..] == moves[1..][..k - 1];
    }
  }

  // ---- a batch of starts

  ghost predicate AllStarts(moves: seq<Move>) {
    forall i :: 0 <= i < |moves| ==> moves[i].Start?
  }

  /** Start number i took row j. */
  predicate Took(moves: seq<Move>, i: int, j: Jid) {
    0 <= i < |moves| && moves[i].Start? && moves[i].jid == j
  }

  ghost predicate Taken(moves: seq<Move>, j: Jid) {
    exists i :: Took(moves, i, j)
  }

  /** a was startable in t and goes before b whenever b was startable too. */
  ghost predicate Precedes(t: Table, name: HostName, a: Jid, b: Jid) {
    Eligible(t, name, a) && (Eligible(t, name, b) ==> a != b && Before(t, a, b))
  }

  /** Each start takes a row that goes before those taken later and before those left behind. */
  ghost predicate TakesInOrder(t: Table, name: HostName, moves: seq<Move>) {
    && (forall i, j {:trigger Took(moves, i, j)} :: Took(moves, i, j) ==> Eligible(t, name, j))
    && (forall i, a, b {:trigger Took(moves, i, a), Precedes(t, name, a, b)} ::
          Took(moves, i, a) && (forall k :: Took(moves, k, b) ==> i < k) ==> Precedes(t, name, a, b))
  }

  /** Rows taken are left as their start wrote them, the others as they were. */
  ghost predicate TakesOnly(t: Table, name: HostName, moves: seq<Move>, t2: Table) {
    && t2.Keys == t.Keys
    && (forall i, j {:trigger Took(moves, i, j)} :: Took(moves, i, j) && j in t && j in t2 ==>
          t2[j] == StartedRow(t[j], name, moves[i].now, moves[i].cid))
    && (forall j :: j in t && j in t2 && !Taken(moves, j) ==> t2[j] == t[j])
  }

  lemma StartedIsNotEligible(t: Table, name: HostName, j: Jid, now: Time, cid: Cid)
    requires j in t
    ensures forall k :: Eligible(t[j := StartedRow(t[j], name, now, cid)], name, k) <==> Eligible(t, name, k) && k != j
  {
  }

  lemma TookLater(moves: seq<Move>, i: int, j: Jid)
    requires moves != []
    ensures Took(moves[1..], i, j) <==> i >= 0 && Took(moves, i + 1, j)
  {
  }

  /** Each start takes the first of the rows that were startable when the batch began and are not yet taken. */
  lemma {:induction false} StartsTakeInOrder(d: Desk, name: HostName, maxFeed: int, moves: seq<Move>)
    requires CanAll(d, name, maxFeed, moves) && AllStarts(moves)
    ensures TakesInOrder(d.jobs, name, moves)
    decreases |moves|
  {
    if moves != [] {
      var m := moves[0];
      var d1 := Moved(d, name, maxFeed, m);
      StartsTakeInOrder(d1, name, maxFeed, moves[1..]);
      StartedIsNotEligible(d.jobs, name, m.jid, m.now, m.cid);
      forall i, j | Took(moves, i, j) ensures Eligible(d.jobs, name, j) {
        if i > 0 { TookLater(moves, i - 1, j); }
      }
      forall i, a, b | Took(moves, i, a) && (forall k :: Took(moves, k, b) ==> i < k)
        ensures Precedes(d.jobs, name, a, b)
      {
        TakesBefore(d, name, maxFeed, moves, i, a, b);
      }
    }
  }

  lemma TakesBefore(d: Desk, name: HostName, maxFeed: int, moves: seq<Move>, i: int, a: Jid, b: Jid)
    requires moves != [] && CanMove(d, name, maxFeed, moves[0]) && moves[0].Start?
    requires TakesInOrder(Moved(d, name, maxFeed, moves[0]).jobs, name, moves[1..])
    requires Took(moves, i, a) && forall k :: Took(moves, k, b) ==> i < k
    ensures Precedes(d.jobs, name, a, b)
  {
    var m := moves[0];
    var t1 := Moved(d, name, maxFeed, m).jobs;
    StartedIsNotEligible(d.jobs, name, m.jid, m.now, m.cid);
    if i == 0 {
      assert !Took(moves, 0, b);
    } else {
      var rest := moves[1..];
      TookLater(moves, i - 1, a);
      forall k | Took(rest, k, b) ensures i - 1 < k { TookLater(moves, k, b); }
      assert Precedes(t1, name, a, b);
      assert !Took(moves, 0, b);
    }
  }

  lemma {:induction false} StartsTakeOnly(d: Desk, name: HostName, maxFeed: int, moves: seq<Move>)
    requires CanAll(d, name, maxFeed, moves) && AllStarts(moves)
    ensures TakesOnly(d.jobs, name, moves, MovedAll(d, name, maxFeed, moves).jobs)
    ensures |MovedAll(d, name, maxFeed, moves).children| == |d.children| + |moves|
    decreases |moves|
  {
    if moves != [] {
      var m := moves[0];
      var d1 := Moved(d, name, maxFeed, m);
      var t2 := MovedAll(d, name, maxFeed, moves).jobs;
      StartsTakeOnly(d1, name, maxFeed, moves[1..]);
      StartsTakeInOrder(d1, name, maxFeed, moves[1..]);
      forall i, j | Took(moves, i, j) && j in d.jobs && j in t2
        ensures t2[j] == StartedRow(d.jobs[j], name, moves[i].now, moves[i].cid)
      {
        TakesRow(d, name, maxFeed, moves, t2, i, j);
      }
      forall j | j in d.jobs && j in t2 && !Taken(moves, j) ensures t2[j] == d.jobs[j] {
        assert !Took(moves, 0, j);
        if Taken(moves[1..], j) {
          var i :| Took(moves[1..], i, j);
          TookLater(moves, i, j);
        }
      }
    }
  }

  lemma TakesRow(d: Desk, name: HostName, maxFeed: int, moves: seq<Move>, t2: Table, i: int, j: Jid)
    requires moves != [] && CanMove(d, name, maxFeed, moves[0]) && moves[0].Start?
    requires TakesOnly(Moved(d, name, maxFeed, moves[0]).jobs, name, moves[1..], t2)
    requires TakesInOrder(Moved(d, name, maxFeed, moves[0]).jobs, name, moves[1..])
    requires Took(moves, i, j) && j in d.jobs && j in t2
    ensures t2[j] == StartedRow(d.jobs[j], name, moves[i].now, moves[i].cid)
  {
    var m := moves[0];
    StartedIsNotEligible(d.jobs, name, m.jid, m.now, m.cid);
    if i == 0 {
      assert !Taken(moves[1..], j);
    } else {
      TookLater(moves, i - 1, j);
    }
  }

  /** A batch that ran until the feeder was busy or nothing was left took every startable row, unless it filled up. */
  lemma NothingLeftBehind(d: Desk, name: HostName, maxFeed: int, moves: seq<Move>, d2: Desk, j: Jid)
    requires Leads(d, name, maxFeed, moves, d2) && AllStarts(moves)
    requires Busy(d2.children, maxFeed) || forall k :: !Eligible(d2.jobs, name, k)
    requires Eligible(d.jobs, name, j) && !Taken(moves, j)
    ensures |d.children| + |moves| == |d2.children| >= maxFeed
    ensures forall i, a :: Took(moves, i, a) ==> Precedes(d.jobs, name, a, j)
  {
    StartsTakeOnly(d, name, maxFeed, moves);
    StartsTakeInOrder(d, name, maxFeed, moves);
    assert d2.jobs[j] == d.jobs[j];
    assert Eligible(d2.jobs, name, j);
    forall i, a | Took(moves, i, a) ensures Precedes(d.jobs, name, a, j) {
      assert forall k :: Took(moves, k, j) ==> Taken(moves, j);
    }
  }
}

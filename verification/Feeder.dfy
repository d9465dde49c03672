/** The feeder (lib/rq/feeder.rb): fills the morgue once, then starts and reaps jobs. */
module Feeder {

  import opened Wrappers
  import opened JobTable
  import opened JobMoves
  import opened JobQueue

  method AnyOf<T(==)>(s: set<T>) returns (x: T)
    requires s != {}
    ensures x in s
  {
    x :| x in s;
  }

  /** A transaction of starts and reaped jobs: what it found, what it did and what it left. */
  datatype Commit = Commit(before: Desk, moves: seq<Move>, after: Desk)

  function AllMoves(commits: seq<Commit>): seq<Move> {
    if commits == [] then [] else commits[0].moves + AllMoves(commits[1..])
  }

  /** Transactions one after the other: the table may change between them, the children do not. */
  ghost predicate Life(commits: seq<Commit>, name: HostName, maxFeed: int, children: Children, children2: Children)
    decreases |commits|
  {
    if commits == [] then children == children2
    else
      && commits[0].before.children == children
      && Leads(commits[0].before, name, maxFeed, commits[0].moves, commits[0].after)
      && Life(commits[1..], name, maxFeed, commits[0].after.children, children2)
  }

  class Feeder {
    const q: Queue
    const name: HostName
    const maxFeed: int
    const started: Time
    var children: Children
    /** The last time read from this host's clock. */
    var clock: Time

    constructor (q: Queue, name: HostName, maxFeed: int, now: Time)
      ensures this.q == q && this.name == name && this.maxFeed == maxFeed && this.started == now
      ensures children == map[] && clock == now
    {
      this.q, this.name, this.maxFeed, this.started := q, name, maxFeed, now;
      children, clock := map[], now;
    }

    ghost function View(): Desk
      reads this, q
    {
      Desk(q.jobs, children)
    }

    /** The system clock: any time not before the last one. */
    method Timestamp() returns (now: Time)
      modifies this`clock
      ensures now == clock >= old(clock)
    {
      now :| now >= clock;
      clock := now;
    }

    /** A process number the job runner daemon hands out; a child not yet reaped keeps its own. */
    method NewRunner() returns (cid: Cid)
      ensures cid !in children
    {
      cid := 0;
      var rest := children.Keys;
      while rest != {}
        invariant rest <= children.Keys
        invariant forall c :: c in children && c !in rest ==> c < cid
        decreases |rest|
      {
        var c := AnyOf(rest);
        rest := rest - {c};
        if c >= cid { cid := c + 1; }
      }
    }

    /** A child that has exited, if the daemon reports one. */
    method Poll() returns (cid: Option<Cid>)
      ensures cid.Some? ==> cid.value in children
    {
      var exited: bool := *;
      if exited && children.Keys != {} {
        var c := AnyOf(children.Keys);
        return Some(c);
      }
      return None;
    }

    /** Waits until some child exits. */
    method Wait() returns (cid: Cid)
      requires children != map[]
      ensures cid in children
    {
      cid := AnyOf(children.Keys);
    }

    /** Between two transactions other hosts and clients commit what they like. */
    method Meanwhile()
      modifies q
    {
      var t: Table := *;
      q.jobs := t;
    }

    method FillMorgue()
      modifies q
      ensures q.jobs == Buried(old(q.jobs), name, started)
    {
      ghost var before := q.jobs;
      var dead := q.GetDeadJobs(name, started);
      while dead != {}
        invariant forall j :: j in dead ==> j in before && IsDeadJob(before[j], name, started)
        invariant q.jobs.Keys == before.Keys
        invariant forall j :: j in before ==>
          q.jobs[j] == if IsDeadJob(before[j], name, started) && j !in dead then before[j].(state := Dead) else before[j]
        decreases |dead|
      {
        var j :| j in dead;
        dead := dead - {j};
        q.JobIsDead(j);
      }
    }

    method StartJob(j: Jid) returns (ghost move: Move)
      requires !Busy(children, maxFeed) && IsNext(q.jobs, name, j)
      modifies this, q
      ensures move.Start? && move.jid == j && move.now == clock >= old(clock)
      ensures CanMove(old(View()), name, maxFeed, move) && View() == Moved(old(View()), name, maxFeed, move)
    {
      var job := q.jobs[j];
      var now := Timestamp();
      job := job.(state := Running, started := Some(now), runner := Some(name));
      var cid := NewRunner();
      job := job.(pid := Some(cid));
      children := children[cid := Child(j, job)];
      q.JobIsRunning(j, job);
      move := Start(j, cid, now);
    }

    /** One transaction: starts jobs until busy or until none is eligible. */
    method StartJobs() returns (n: nat, ghost moves: seq<Move>)
      modifies this, q
      ensures Leads(old(View()), name, maxFeed, moves, View()) && AllStarts(moves) && n == |moves|
      ensures Busy(children, maxFeed) || forall j :: !Eligible(q.jobs, name, j)
      ensures Timed(old(clock), moves) && clock == LastTime(old(clock), moves)
    {
      n, moves := 0, [];
      while !Busy(children, maxFeed)
        invariant Leads(old(View()), name, maxFeed, moves, View()) && AllStarts(moves) && n == |moves|
        invariant Timed(old(clock), moves) && clock == LastTime(old(clock), moves)
        decreases maxFeed - |children|
      {
        var job := q.GetJob(name);
        if job.None? { break; }
        ghost var view, time := View(), clock;
        ghost var move := StartJob(job.value);
        LeadsOne(view, name, maxFeed, move);
        LeadsOn(old(View()), name, maxFeed, moves, view, [move], View());
        assert Timed(time, [move]);
        TimedOn(old(clock), moves, [move]);
        moves := moves + [move];
        n := n + 1;
      }
    }

    /** The record as finish_job leaves it. */
    method FinishJob(cid: Cid) returns (job: Job, ghost now: Time, ghost status: Option<int>)
      requires cid in children
      modifies this`clock
      ensures now == clock >= old(clock) && job == FinishedRow(children[cid].job, now, status)
    {
      var exit: Option<int> := *;
      var t := Timestamp();
      job := children[cid].job;
      job := job.(finished := Some(t),
                  elapsed := if job.started.Some? then Some(t - job.started.value) else None);
      job := job.(exitStatus := exit);
      job := job.(state := Finished);
      now, status := t, exit;
    }

    /** One transaction of starts, as a commit. */
    method CommitStarts() returns (ghost c: Commit)
      modifies this, q
      ensures c == Commit(old(View()), c.moves, View()) && Leads(c.before, name, maxFeed, c.moves, c.after) && AllStarts(c.moves)
      ensures Busy(children, maxFeed) || forall j :: !Eligible(q.jobs, name, j)
      ensures Timed(old(clock), c.moves) && clock == LastTime(old(clock), c.moves)
      ensures old(children) != map[] ==> children != map[]
    {
      ghost var before := View();
      var n; ghost var moves;
      n, moves := StartJobs();
      c := Commit(before, moves, View());
      if before.children != map[] { NeverFewer(before, name, maxFeed, moves); }
    }

    /** Waits for a child, starting jobs meanwhile unless busy; polls bounds how often it looks before one exits. */
    method AwaitChild(reapOnly: bool, polls: nat) returns (cid: Cid, ghost commits: seq<Commit>)
      requires children != map[]
      modifies this, q
      ensures cid in children && (reapOnly ==> commits == [])
      ensures Life(commits, name, maxFeed, old(children), children) && AllStarts(AllMoves(commits))
      ensures Timed(old(clock), AllMoves(commits)) && clock == LastTime(old(clock), AllMoves(commits))
    {
      commits := [];
      var found: Option<Cid> := None;
      if !(Busy(children, maxFeed) || reapOnly) {
        var i := 0;
        while i < polls
          invariant children != map[] && (found.Some? ==> found.value in children)
          invariant Life(commits, name, maxFeed, old(children), children) && AllStarts(AllMoves(commits))
          invariant Timed(old(clock), AllMoves(commits)) && clock == LastTime(old(clock), AllMoves(commits))
        {
          found := Poll();
          if found.Some? { break; }
          var signaled: bool := *;
          if !signaled {
            Meanwhile();
            ghost var was, time := children, clock;
            ghost var c := CommitStarts();
            OneMore(commits, name, maxFeed, old(children), was, c, old(clock), time);
            commits := commits + [c];
          }
          if Busy(children, maxFeed) { break; }
          found := Poll();
          if found.Some? { break; }
          i := i + 1;
        }
      }
      if found.Some? {
        cid := found.value;
      } else {
        cid := Wait();
      }
    }

    /** Takes over the children one after the other as they exit, in one transaction, starting jobs in between. */
    method ReapBatch(cid: Cid, reapOnly: bool) returns (reaped: seq<Cid>, ghost moves: seq<Move>)
      requires cid in children
      modifies this, q
      ensures Leads(old(View()), name, maxFeed, moves, View())
      ensures Timed(old(clock), moves) && clock == LastTime(old(clock), moves)
      ensures reaped != [] && reaped == Reaped(moves)
      ensures reapOnly ==> children.Keys < old(children).Keys && |moves| == |reaped|
    {
      reaped, moves := [], [];
      var loopno := 0;
      var found := Some(cid);
      while found.Some?
        invariant found.Some? ==> found.value in children
        invariant found.None? ==> reaped != []
        invariant Leads(old(View()), name, maxFeed, moves, View())
        invariant Timed(old(clock), moves) && clock == LastTime(old(clock), moves)
        invariant reaped == Reaped(moves)
        invariant reapOnly ==> children.Keys <= old(children).Keys && |moves| == |reaped|
        invariant reapOnly && reaped != [] ==> children.Keys < old(children).Keys
        decreases found.Some?, 43 - loopno
      {
        ghost var view, time := View(), clock;
        ghost var more := ReapOne(found.value, reapOnly);
        LeadsOn(old(View()), name, maxFeed, moves, view, more, View());
        TimedOn(old(clock), moves, more);
        ReapedOn(moves, more);
        moves := moves + more;
        reaped := reaped + [found.value];
        if children == map[] || loopno > 42 { break; }
        found := Poll();
        loopno := loopno + 1;
      }
    }

    /** Waits until a child exits, and reaps; whatever starts it makes while it waits are transactions of their own. */
    method ReapJobs(reapOnly: bool, polls: nat) returns (reaped: seq<Cid>, ghost commits: seq<Commit>)
      requires children != map[]
      modifies this, q
      ensures Life(commits, name, maxFeed, old(children), children)
      ensures Timed(old(clock), AllMoves(commits)) && clock == LastTime(old(clock), AllMoves(commits))
      ensures reaped != [] && reaped == Reaped(AllMoves(commits))
      ensures reapOnly ==> children.Keys < old(children).Keys && |AllMoves(commits)| == |reaped|
    {
      var cid;
      cid, commits := AwaitChild(reapOnly, polls);
      StartsReapNone(AllMoves(commits));
      Meanwhile();
      ghost var before, time := View(), clock;
      ghost var moves;
      reaped, moves := ReapBatch(cid, reapOnly);
      ghost var c := Commit(before, moves, View());
      OneMore(commits, name, maxFeed, old(children), before.children, c, old(clock), time);
      ReapedOn(AllMoves(commits), moves);
      commits := commits + [c];
    }

    /** One round of the loop inside the transaction. */
    method ReapOne(cid: Cid, reapOnly: bool) returns (ghost moves: seq<Move>)
      requires cid in children
      modifies this, q
      ensures Leads(old(View()), name, maxFeed, moves, View())
      ensures Timed(old(clock), moves) && clock == LastTime(old(clock), moves)
      ensures Reaped(moves) == [cid]
      ensures reapOnly ==> children == old(children) - {cid} && |moves| == 1
    {
      ghost var view, time := View(), clock;
      var jid := children[cid].jid;
      var job; ghost var now, status;
      job, now, status := FinishJob(cid);
      q.JobIsDone(jid, job);
      children := children - {cid};
      ghost var move := Finish(cid, now, status);
      LeadsOne(view, name, maxFeed, move);
      moves := [move];
      assert Timed(time, moves);
      assert moves[1..] == [];
      var signaled: bool := *;
      if !(reapOnly || signaled) {
        ghost var middle, noon := View(), clock;
        var n; ghost var more;
        n, more := StartJobs();
        LeadsOn(view, name, maxFeed, moves, middle, more, View());
        TimedOn(time, moves, more);
        StartsReapNone(more);
        ReapedOn(moves, more);
        moves := moves + more;
      }
    }

    /** A signal to stop: reap until nothing is running, starting nothing. */
    method Stop(polls: nat) returns (ghost commits: seq<Commit>)
      modifies this, q
      ensures children == map[] && Life(commits, name, maxFeed, old(children), children)
      ensures Timed(old(clock), AllMoves(commits)) && clock == LastTime(old(clock), AllMoves(commits))
      ensures |Reaped(AllMoves(commits))| == |AllMoves(commits)|
    {
      commits := [];
      while children != map[]
        invariant Life(commits, name, maxFeed, old(children), children)
        invariant Timed(old(clock), AllMoves(commits)) && clock == LastTime(old(clock), AllMoves(commits))
        invariant |Reaped(AllMoves(commits))| == |AllMoves(commits)|
        decreases children.Keys
      {
        ghost var was, time := children, clock;
        var reaped; ghost var more;
        reaped, more := ReapJobs(true, polls);
        LifeOn(commits, more, name, maxFeed, old(children), was, children, old(clock), time);
        ReapedOn(AllMoves(commits), AllMoves(more));
        commits := commits + more;
      }
    }

    /** What a feeder does from its start on: the morgue first, then loops rounds of starting and reaping. */
    method Feed(loops: nat, polls: nat) returns (ghost morgue: Table, ghost commits: seq<Commit>)
      requires children == map[]
      modifies this, q
      ensures morgue == Buried(old(q.jobs), name, started)
      ensures Life(commits, name, maxFeed, map[], children)
      ensures Timed(old(clock), AllMoves(commits)) && clock == LastTime(old(clock), AllMoves(commits))
    {
      FillMorgue();
      morgue := q.jobs;
      commits := [];
      var i := 0;
      while i < loops
        invariant Life(commits, name, maxFeed, map[], children)
        invariant Timed(old(clock), AllMoves(commits)) && clock == LastTime(old(clock), AllMoves(commits))
      {
        ghost var was, time := children, clock;
        ghost var more := Round(polls);
        LifeOn(commits, more, name, maxFeed, map[], was, children, old(clock), time);
        commits := commits + more;
        i := i + 1;
      }
    }

    method Round(polls: nat) returns (ghost commits: seq<Commit>)
      modifies this, q
      ensures Life(commits, name, maxFeed, old(children), children)
      ensures Timed(old(clock), AllMoves(commits)) && clock == LastTime(old(clock), AllMoves(commits))
    {
      commits := [];
      if !Busy(children, maxFeed) {
        Meanwhile();
        ghost var was, time := children, clock;
        ghost var c := CommitStarts();
        OneMore([], name, maxFeed, was, was, c, time, time);
        commits := [] + [c];
      }
      if children != map[] {
        ghost var was, time := children, clock;
        var reaped; ghost var more;
        reaped, more := ReapJobs(false, polls);
        LifeOn(commits, more, name, maxFeed, old(children), was, children, old(clock), time);
        commits := commits + more;
      }
    }
  }

  lemma {:induction false} MovesConcat(a: seq<Commit>, b: seq<Commit>)
    ensures AllMoves(a + b) == AllMoves(a) + AllMoves(b)
    decreases |a|
  {
    if a == [] {
      assert a + b == b;
    } else {
      assert (a + b)[1..] == a[1..] + b;
      MovesConcat(a[1..], b);
    }
  }

  lemma {:induction false} LifeConcat(a: seq<Commit>, b: seq<Commit>, name: HostName, maxFeed: int,
                                      c0: Children, c1: Children, c2: Children)
    requires Life(a, name, maxFeed, c0, c1) && Life(b, name, maxFeed, c1, c2)
    ensures Life(a + b, name, maxFeed, c0, c2)
    decreases |a|
  {
    if a == [] {
      assert a + b == b;
    } else {
      assert (a + b)[1..] == a[1..] + b;
      LifeConcat(a[1..], b, name, maxFeed, a[0].after.children, c1, c2);
    }
  }

  /** More transactions behind those so far. */
  lemma LifeOn(a: seq<Commit>, b: seq<Commit>, name: HostName, maxFeed: int, c0: Children, c1: Children, c2: Children,
               t0: Time, t1: Time)
    requires Life(a, name, maxFeed, c0, c1) && Life(b, name, maxFeed, c1, c2)
    requires Timed(t0, AllMoves(a)) && t1 == LastTime(t0, AllMoves(a)) && Timed(t1, AllMoves(b))
    ensures Life(a + b, name, maxFeed, c0, c2) && AllMoves(a + b) == AllMoves(a) + AllMoves(b)
    ensures Timed(t0, AllMoves(a + b)) && LastTime(t0, AllMoves(a + b)) == LastTime(t1, AllMoves(b))
  {
    LifeConcat(a, b, name, maxFeed, c0, c1, c2);
    MovesConcat(a, b);
    TimedOn(t0, AllMoves(a), AllMoves(b));
  }

  lemma OneMore(a: seq<Commit>, name: HostName, maxFeed: int, c0: Children, c1: Children, c: Commit, t0: Time, t1: Time)
    requires Life(a, name, maxFeed, c0, c1) && c.before.children == c1
    requires Leads(c.before, name, maxFeed, c.moves, c.after)
    requires Timed(t0, AllMoves(a)) && t1 == LastTime(t0, AllMoves(a)) && Timed(t1, c.moves)
    ensures Life(a + [c], name, maxFeed, c0, c.after.children) && AllMoves(a + [c]) == AllMoves(a) + c.moves
    ensures Timed(t0, AllMoves(a + [c])) && LastTime(t0, AllMoves(a + [c])) == LastTime(t1, c.moves)
    ensures AllStarts(AllMoves(a)) && AllStarts(c.moves) ==> AllStarts(AllMoves(a + [c]))
  {
    assert [c][1..] == [] && AllMoves([c][1..]) == [];
    assert AllMoves([c]) == c.moves;
    LifeOn(a, [c], name, maxFeed, c0, c1, c.after.children, t0, t1);
    if AllStarts(AllMoves(a)) && AllStarts(c.moves) { StartsConcat(AllMoves(a), c.moves); }
  }

  lemma {:induction false} StartsConcat(a: seq<Move>, b: seq<Move>)
    requires AllStarts(a) && AllStarts(b)
    ensures AllStarts(a + b)
  {
    if a == [] {
      assert a + b == b;
    } else {
      assert (a + b)[1..] == a[1..] + b;
      StartsConcat(a[1..], b);
    }
  }

  /** The children reaped by moves, in order. */
  ghost function Reaped(moves: seq<Move>): seq<Cid> {
    if moves == [] then []
    else if moves[0].Finish? then [moves[0].cid] + Reaped(moves[1..])
    else Reaped(moves[1..])
  }

  lemma {:induction false} ReapedOn(a: seq<Move>, b: seq<Move>)
    ensures Reaped(a + b) == Reaped(a) + Reaped(b)
  {
    if a == [] {
      assert a + b == b;
    } else {
      assert (a + b)[1..] == a[1..] + b;
      ReapedOn(a[1..], b);
    }
  }

  lemma {:induction false} StartsReapNone(moves: seq<Move>)
    requires AllStarts(moves)
    ensures Reaped(moves) == []
  {
    if moves != [] { StartsReapNone(moves[1..]); }
  }

  lemma NeverFewer(d: Desk, name: HostName, maxFeed: int, moves: seq<Move>)
    requires CanAll(d, name, maxFeed, moves) && AllStarts(moves) && d.children != map[]
    ensures MovedAll(d, name, maxFeed, moves).children != map[]
  {
    StartsTakeOnly(d, name, maxFeed, moves);
  }
}

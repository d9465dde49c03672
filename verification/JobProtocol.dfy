/**
 * Runs of many hosts over one shared table: feeders boot, bury what an earlier feeder of their host left running,
 * start and reap jobs and crash, while clients submit, resubmit, delete and update. Each event is one committed
 * transaction; crashes fall between transactions.
 */
module JobProtocol {

  import opened Wrappers
  import opened JobTable
  import opened JobMoves

  /** A live feeder; filled says that it has been through fill_morgue. */
  datatype Feeder = Feeder(started: Time, maxFeed: int, filled: bool, children: Children)

  /** Feeders holds at most one live feeder a host; clocks the last time read on each host. */
  datatype World = World(jobs: Table, feeders: map<HostName, Feeder>, clocks: map<HostName, Time>)

  datatype Event =
    | Boot(host: HostName, now: Time, maxFeed: int)
    | FillMorgue(host: HostName)
    | Feed(host: HostName, moves: seq<Move>)
    | Crash(host: HostName)
    | Submit(requests: seq<Request>, now: Time, submitter: HostName)
    | Resubmit(whats: seq<What>, options: Options, now: Time, submitter: HostName)
    | Delete(whats: seq<What>, force: bool)
    | Update(changes: Changes, whats: seq<What>)

  ghost predicate Monotone(clocks: map<HostName, Time>, host: HostName, now: Time) {
    host in clocks ==> clocks[host] <= now
  }

  ghost predicate Enabled(w: World, e: Event) {
    match e
    case Boot(host, now, maxFeed) => host !in w.feeders && Monotone(w.clocks, host, now)
    case FillMorgue(host) => host in w.feeders && !w.feeders[host].filled
    case Feed(host, moves) =>
      && host in w.feeders && w.feeders[host].filled && host in w.clocks && Timed(w.clocks[host], moves)
      && CanAll(Desk(w.jobs, w.feeders[host].children), host, w.feeders[host].maxFeed, moves)
    case Crash(host) => host in w.feeders
    case _ => true
  }

  ghost function Next(w: World, e: Event): World
    requires Enabled(w, e)
  {
    match e
    case Boot(host, now, maxFeed) =>
      w.(feeders := w.feeders[host := Feeder(now, maxFeed, false, map[])], clocks := w.clocks[host := now])
    case FillMorgue(host) =>
      var f := w.feeders[host];
      w.(jobs := Buried(w.jobs, host, f.started), feeders := w.feeders[host := f.(filled := true)])
    case Feed(host, moves) =>
      var f := w.feeders[host];
      var d := MovedAll(Desk(w.jobs, f.children), host, f.maxFeed, moves);
      World(d.jobs, w.feeders[host := f.(children := d.children)],
            w.clocks[host := LastTime(w.clocks[host], moves)])
    case Crash(host) => w.(feeders := w.feeders - {host})
    case Submit(requests, now, submitter) => w.(jobs := Submitted(w.jobs, requests, now, submitter))
    case Resubmit(whats, options, now, submitter) => w.(jobs := Resubmitted(w.jobs, whats, options, now, submitter))
    case Delete(whats, force) => w.(jobs := Deleted(w.jobs, whats, force))
    case Update(changes, whats) => w.(jobs := Updated(w.jobs, changes, whats))
  }

  // ---- what always holds

  predicate IsRunning(t: Table, j: Jid) {
    j in t && t[j].state == Running
  }

  predicate RunsOn(t: Table, j: Jid, host: HostName) {
    IsRunning(t, j) && t[j].runner == Some(host)
  }

  ghost predicate HoldsJob(children: Children, cid: Cid, j: Jid) {
    cid in children && children[cid].jid == j
  }

  ghost predicate HasJob(children: Children, j: Jid) {
    exists cid :: HoldsJob(children, cid, j)
  }

  /** A feeder's children and the rows running on its host are the same jobs, each held once. */
  ghost predicate Matched(t: Table, host: HostName, children: Children) {
    && (forall cid, j :: HoldsJob(children, cid, j) ==> RunsOn(t, j, host))
    && (forall c1, c2, j :: HoldsJob(children, c1, j) && HoldsJob(children, c2, j) ==> c1 == c2)
    && (forall j :: RunsOn(t, j, host) ==> HasJob(children, j))
  }

  /** A row running on host was started no later than now. */
  predicate StartedBy(t: Table, j: Jid, now: Time) {
    IsRunning(t, j) ==> t[j].started.Some? && t[j].started.value <= now
  }

  /** Before its morgue is filled a feeder has no children, and all its host's running rows are from before. */
  ghost predicate Fresh(t: Table, host: HostName, f: Feeder) {
    f.children == map[] && forall j :: RunsOn(t, j, host) ==> StartedBy(t, j, f.started)
  }

  ghost predicate FeederOk(t: Table, host: HostName, f: Feeder) {
    Within(f.children, f.maxFeed) && if f.filled then Matched(t, host, f.children) else Fresh(t, host, f)
  }

  /** Every running row names the host that started it, at a time that host's clock has passed. */
  ghost predicate RowOk(w: World, j: Jid) {
    IsRunning(w.jobs, j) ==>
      && w.jobs[j].runner.Some? && w.jobs[j].runner.value in w.clocks
      && StartedBy(w.jobs, j, w.clocks[w.jobs[j].runner.value])
  }

  ghost predicate HostOk(w: World, host: HostName) {
    host in w.feeders ==> host in w.clocks && FeederOk(w.jobs, host, w.feeders[host])
  }

  ghost predicate Inv(w: World) {
    (forall j :: RowOk(w, j)) && (forall host :: HostOk(w, host))
  }

  // ---- steps of other parties leave a feeder's rows alone

  /** Between two tables the running rows of host are the same rows. */
  ghost predicate SameRunning(t: Table, t2: Table, host: HostName) {
    forall j :: (RunsOn(t, j, host) <==> RunsOn(t2, j, host)) && (RunsOn(t, j, host) ==> t2[j].started == t[j].started)
  }

  lemma FeederUnmoved(t: Table, t2: Table, host: HostName, f: Feeder)
    requires FeederOk(t, host, f) && SameRunning(t, t2, host)
    ensures FeederOk(t2, host, f)
  {
  }

  /** No row becomes running, stops running or is touched while running. */
  ghost predicate LeavesRunning(t: Table, t2: Table) {
    forall j :: (IsRunning(t, j) <==> IsRunning(t2, j)) && (IsRunning(t, j) ==> t2[j] == t[j])
  }

  lemma ClientKeeps(w: World, t2: Table)
    requires Inv(w) && LeavesRunning(w.jobs, t2)
    ensures Inv(w.(jobs := t2))
  {
    var w2 := w.(jobs := t2);
    forall j ensures RowOk(w2, j) { assert RowOk(w, j); }
    forall host ensures HostOk(w2, host) {
      assert HostOk(w, host);
      if host in w.feeders { FeederUnmoved(w.jobs, t2, host, w.feeders[host]); }
    }
  }

  lemma {:induction false} InsertedLeaves(t: Table, next: Jid, rs: seq<Request>, now: Time, submitter: HostName)
    requires forall j :: j in t ==> j < next
    ensures LeavesRunning(t, Inserted(t, next, rs, now, submitter))
    decreases |rs|
  {
    if rs != [] {
      var t1 := t[next := NewRow(rs[0], now, submitter)];
      InsertedLeaves(t1, next + 1, rs[1..], now, submitter);
      assert LeavesRunning(t, t1);
    }
  }

  lemma SubmitKeeps(w: World, rs: seq<Request>, now: Time, submitter: HostName)
    requires Inv(w)
    ensures Inv(w.(jobs := Submitted(w.jobs, rs, now, submitter)))
  {
    InsertedLeaves(w.jobs, MaxJid(w.jobs.Keys) + 1, rs, now, submitter);
    ClientKeeps(w, Submitted(w.jobs, rs, now, submitter));
  }

  lemma ResubmitKeeps(w: World, whats: seq<What>, o: Options, now: Time, submitter: HostName)
    requires Inv(w)
    ensures Inv(w.(jobs := Resubmitted(w.jobs, whats, o, now, submitter)))
  {
    ClientKeeps(w, Resubmitted(w.jobs, whats, o, now, submitter));
  }

  lemma UpdateKeeps(w: World, c: Changes, whats: seq<What>)
    requires Inv(w)
    ensures Inv(w.(jobs := Updated(w.jobs, c, whats)))
  {
    ClientKeeps(w, Updated(w.jobs, c, whats));
  }

  // ---- deleting

  ghost predicate HasChild(w: World, host: HostName, cid: Cid) {
    host in w.feeders && cid in w.feeders[host].children
  }

  /** Someone is at work on a job. */
  ghost predicate AnyHeld(w: World) {
    exists host, cid :: HasChild(w, host, cid)
  }

  /** A forced delete of the running rows while some feeder holds one of them. */
  ghost predicate Robs(w: World, e: Event) {
    e.Delete? && e.force && InState(Running) in e.whats && AnyHeld(w)
  }

  lemma DeleteRunning(t: Table, whats: seq<What>, force: bool)
    ensures force && InState(Running) in whats ==> forall j :: !IsRunning(Deleted(t, whats, force), j)
    ensures !(force && InState(Running) in whats) ==> LeavesRunning(t, Deleted(t, whats, force))
  {
    if force && InState(Running) in whats {
      forall j | j in t && t[j].state == Running ensures Deletes(whats, force, j, t[j]) {
        assert DeletedBy(InState(Running), force, j, t[j]);
      }
    }
  }

  /** Rows left over from feeders that are gone may be deleted by force: nobody holds them. */
  lemma DeleteKeeps(w: World, e: Event)
    requires Inv(w) && e.Delete? && !Robs(w, e)
    ensures Inv(Next(w, e))
  {
    DeleteRunning(w.jobs, e.whats, e.force);
    var w2 := Next(w, e);
    if e.force && InState(Running) in e.whats {
      forall j ensures RowOk(w2, j) {}
      forall host ensures HostOk(w2, host) {
        assert HostOk(w, host);
        if host in w.feeders { assert forall cid :: cid in w.feeders[host].children ==> HasChild(w, host, cid); }
      }
    } else {
      ClientKeeps(w, w2.jobs);
    }
  }

  lemma RobbingBreaks(w: World, e: Event)
    requires Inv(w) && Robs(w, e)
    ensures !Inv(Next(w, e))
  {
    DeleteRunning(w.jobs, e.whats, e.force);
    var host, cid :| HasChild(w, host, cid);
    assert HostOk(w, host);
    var w2 := Next(w, e);
    assert HoldsJob(w2.feeders[host].children, cid, w2.feeders[host].children[cid].jid);
    assert !HostOk(w2, host);
  }

  // ---- feeders coming and going

  lemma BootKeeps(w: World, host: HostName, now: Time, maxFeed: int)
    requires Inv(w) && Enabled(w, Boot(host, now, maxFeed))
    ensures Inv(Next(w, Boot(host, now, maxFeed)))
  {
    var w2 := Next(w, Boot(host, now, maxFeed));
    forall j ensures RowOk(w2, j) { assert RowOk(w, j); }
    forall h ensures HostOk(w2, h) {
      assert HostOk(w, h);
      if h == host {
        forall j | RunsOn(w.jobs, j, host) ensures StartedBy(w.jobs, j, now) { assert RowOk(w, j); }
      }
    }
  }

  lemma CrashKeeps(w: World, host: HostName)
    requires Inv(w) && host in w.feeders
    ensures Inv(Next(w, Crash(host)))
  {
    var w2 := Next(w, Crash(host));
    forall j ensures RowOk(w2, j) { assert RowOk(w, j); }
    forall h ensures HostOk(w2, h) { assert HostOk(w, h); }
  }

  /** Burying turns every running row of the host dead and touches nothing else. */
  lemma MorgueTakesAll(t: Table, host: HostName, f: Feeder)
    requires Fresh(t, host, f)
    ensures forall j :: !RunsOn(Buried(t, host, f.started), j, host)
    ensures forall h :: h != host ==> SameRunning(t, Buried(t, host, f.started), h)
  {
    forall j ensures !RunsOn(Buried(t, host, f.started), j, host) {
      if RunsOn(t, j, host) { assert StartedBy(t, j, f.started); }
    }
  }

  lemma MorgueKeeps(w: World, host: HostName)
    requires Inv(w) && Enabled(w, FillMorgue(host))
    ensures Inv(Next(w, FillMorgue(host)))
  {
    var w2 := Next(w, FillMorgue(host));
    assert HostOk(w, host);
    MorgueTakesAll(w.jobs, host, w.feeders[host]);
    forall j ensures RowOk(w2, j) { assert RowOk(w, j); }
    forall h ensures HostOk(w2, h) {
      assert HostOk(w, h);
      if h != host && h in w.feeders { FeederUnmoved(w.jobs, w2.jobs, h, w.feeders[h]); }
    }
  }

  // ---- starting and reaping

  ghost function AfterMove(w: World, host: HostName, m: Move): World
    requires host in w.feeders
    requires CanMove(Desk(w.jobs, w.feeders[host].children), host, w.feeders[host].maxFeed, m)
  {
    var f := w.feeders[host];
    var d := Moved(Desk(w.jobs, f.children), host, f.maxFeed, m);
    World(d.jobs, w.feeders[host := f.(children := d.children)], w.clocks[host := m.now])
  }

  ghost predicate Ready(w: World, host: HostName, m: Move) {
    && host in w.feeders && w.feeders[host].filled && host in w.clocks && w.clocks[host] <= m.now
    && CanMove(Desk(w.jobs, w.feeders[host].children), host, w.feeders[host].maxFeed, m)
  }

  lemma StartMatches(t: Table, ch: Children, host: HostName, maxFeed: int, m: Move)
    requires Matched(t, host, ch) && m.Start? && CanMove(Desk(t, ch), host, maxFeed, m)
    ensures Matched(Moved(Desk(t, ch), host, maxFeed, m).jobs, host, Moved(Desk(t, ch), host, maxFeed, m).children)
    ensures forall h :: h != host ==> SameRunning(t, Moved(Desk(t, ch), host, maxFeed, m).jobs, h)
  {
    var d := Moved(Desk(t, ch), host, maxFeed, m);
    assert !IsRunning(t, m.jid);
    forall cid, j | HoldsJob(d.children, cid, j) ensures RunsOn(d.jobs, j, host) {
      if cid != m.cid { assert HoldsJob(ch, cid, j); }
    }
    forall c1, c2, j | HoldsJob(d.children, c1, j) && HoldsJob(d.children, c2, j) ensures c1 == c2 {
      if c1 != m.cid { assert HoldsJob(ch, c1, j); }
      if c2 != m.cid { assert HoldsJob(ch, c2, j); }
    }
    forall j | RunsOn(d.jobs, j, host) ensures HasJob(d.children, j) {
      if j == m.jid {
        assert HoldsJob(d.children, m.cid, j);
      } else {
        assert RunsOn(t, j, host);
        var cid :| HoldsJob(ch, cid, j);
        assert HoldsJob(d.children, cid, j);
      }
    }
  }

  lemma FinishMatches(t: Table, ch: Children, host: HostName, maxFeed: int, m: Move)
    requires Matched(t, host, ch) && m.Finish? && CanMove(Desk(t, ch), host, maxFeed, m)
    ensures Matched(Moved(Desk(t, ch), host, maxFeed, m).jobs, host, Moved(Desk(t, ch), host, maxFeed, m).children)
    ensures forall h :: h != host ==> SameRunning(t, Moved(Desk(t, ch), host, maxFeed, m).jobs, h)
  {
    var d := Moved(Desk(t, ch), host, maxFeed, m);
    var jid := ch[m.cid].jid;
    assert HoldsJob(ch, m.cid, jid);
    forall cid, j | HoldsJob(d.children, cid, j) ensures HoldsJob(ch, cid, j) && j != jid {
      assert HoldsJob(ch, cid, j);
    }
    forall j | RunsOn(d.jobs, j, host) ensures HasJob(d.children, j) {
      assert RunsOn(t, j, host);
      var cid :| HoldsJob(ch, cid, j);
      assert HoldsJob(d.children, cid, j);
    }
  }

  lemma MoveMatches(t: Table, ch: Children, host: HostName, maxFeed: int, m: Move)
    requires Matched(t, host, ch) && CanMove(Desk(t, ch), host, maxFeed, m)
    ensures Matched(Moved(Desk(t, ch), host, maxFeed, m).jobs, host, Moved(Desk(t, ch), host, maxFeed, m).children)
    ensures forall h :: h != host ==> SameRunning(t, Moved(Desk(t, ch), host, maxFeed, m).jobs, h)
  {
    match m
    case Start(_, _, _) => StartMatches(t, ch, host, maxFeed, m);
    case Finish(_, _, _) => FinishMatches(t, ch, host, maxFeed, m);
  }

  lemma MoveKeepsRows(w: World, host: HostName, m: Move, j: Jid)
    requires Inv(w) && Ready(w, host, m)
    ensures RowOk(AfterMove(w, host, m), j)
  {
    assert RowOk(w, j);
    assert HostOk(w, host);
    if m.Finish? { assert HoldsJob(w.feeders[host].children, m.cid, w.feeders[host].children[m.cid].jid); }
  }

  lemma MoveKeeps(w: World, host: HostName, m: Move)
    requires Inv(w) && Ready(w, host, m)
    ensures Inv(AfterMove(w, host, m))
  {
    var w2 := AfterMove(w, host, m);
    var f := w.feeders[host];
    assert HostOk(w, host);
    MoveMatches(w.jobs, f.children, host, f.maxFeed, m);
    MoveStaysWithin(Desk(w.jobs, f.children), host, f.maxFeed, m);
    forall j ensures RowOk(w2, j) { MoveKeepsRows(w, host, m, j); }
    forall h ensures HostOk(w2, h) {
      assert HostOk(w, h);
      if h != host && h in w.feeders { FeederUnmoved(w.jobs, w2.jobs, h, w.feeders[h]); }
    }
  }

  lemma {:induction false} FeedKeeps(w: World, host: HostName, moves: seq<Move>)
    requires Inv(w) && Enabled(w, Feed(host, moves))
    ensures Inv(Next(w, Feed(host, moves)))
    decreases |moves|
  {
    if moves == [] {
      assert w.feeders[host := w.feeders[host].(children := w.feeders[host].children)] == w.feeders;
      assert w.clocks[host := w.clocks[host]] == w.clocks;
    } else {
      var w1 := AfterMove(w, host, moves[0]);
      MoveKeeps(w, host, moves[0]);
      FeedKeeps(w1, host, moves[1..]);
      FeedSplits(w, host, moves);
    }
  }

  /** A transaction is its first move followed by the rest. */
  lemma FeedSplits(w: World, host: HostName, moves: seq<Move>)
    requires Enabled(w, Feed(host, moves)) && moves != []
    ensures Ready(w, host, moves[0]) && Enabled(AfterMove(w, host, moves[0]), Feed(host, moves[1..]))
    ensures Next(w, Feed(host, moves)) == Next(AfterMove(w, host, moves[0]), Feed(host, moves[1..]))
  {
    var w1 := AfterMove(w, host, moves[0]);
    var f := w.feeders[host];
    var d1 := Moved(Desk(w.jobs, f.children), host, f.maxFeed, moves[0]);
    var d2 := MovedAll(d1, host, f.maxFeed, moves[1..]);
    PutTwice(w.feeders, host, f.(children := d1.children), f.(children := d2.children));
    PutTwice(w.clocks, host, moves[0].now, LastTime(moves[0].now, moves[1..]));
  }

  lemma PutTwice<V>(m: map<HostName, V>, host: HostName, v: V, u: V)
    ensures m[host := v][host := u] == m[host := u]
  {
  }

  // ---- whole runs

  /** Every step that is not a robbery keeps the invariant, and a robbery always breaks it. */
  lemma StepKeepsExactly(w: World, e: Event)
    requires Inv(w) && Enabled(w, e)
    ensures Inv(Next(w, e)) <==> !Robs(w, e)
  {
    match e
    case Boot(host, now, maxFeed) => BootKeeps(w, host, now, maxFeed);
    case FillMorgue(host) => MorgueKeeps(w, host);
    case Feed(host, moves) => FeedKeeps(w, host, moves);
    case Crash(host) => CrashKeeps(w, host);
    case Submit(requests, now, submitter) => SubmitKeeps(w, requests, now, submitter);
    case Resubmit(whats, options, now, submitter) => ResubmitKeeps(w, whats, options, now, submitter);
    case Delete(whats, force) => if Robs(w, e) { RobbingBreaks(w, e); } else { DeleteKeeps(w, e); }
    case Update(changes, whats) => UpdateKeeps(w, changes, whats);
  }

  ghost predicate Runs(w: World, es: seq<Event>)
    decreases |es|
  {
    es == [] || (Enabled(w, es[0]) && Runs(Next(w, es[0]), es[1..]))
  }

  ghost function Reached(w: World, es: seq<Event>): World
    requires Runs(w, es)
    decreases |es|
  {
    if es == [] then w else Reached(Next(w, es[0]), es[1..])
  }

  ghost predicate Unrobbed(w: World, es: seq<Event>)
    requires Runs(w, es)
    decreases |es|
  {
    es == [] || (!Robs(w, es[0]) && Unrobbed(Next(w, es[0]), es[1..]))
  }

  const EMPTY: World := World(map[], map[], map[])

  lemma {:induction false} RunKeeps(w: World, es: seq<Event>)
    requires Inv(w) && Runs(w, es) && Unrobbed(w, es)
    ensures Inv(Reached(w, es))
    decreases |es|
  {
    if es != [] {
      StepKeepsExactly(w, es[0]);
      RunKeeps(Next(w, es[0]), es[1..]);
    }
  }

  /** host's process cid is at work on row j. */
  ghost predicate WorksOn(w: World, host: HostName, cid: Cid, j: Jid) {
    host in w.feeders && HoldsJob(w.feeders[host].children, cid, j)
  }

  /** The row's host has no live feeder that has filled its morgue. */
  ghost predicate AwaitsMorgue(w: World, j: Jid) {
    && IsRunning(w.jobs, j) && w.jobs[j].runner.Some?
    && (w.jobs[j].runner.value in w.feeders ==> !w.feeders[w.jobs[j].runner.value].filled)
  }

  ghost predicate Worked(w: World, j: Jid) {
    exists host, cid :: WorksOn(w, host, cid, j)
  }

  /** Each running row is worked on or awaits a morgue, never both; only one process works on a row; it is running. */
  ghost predicate Exclusive(w: World) {
    && (forall j :: IsRunning(w.jobs, j) ==> (Worked(w, j) <==> !AwaitsMorgue(w, j)))
    && (forall h1, h2, c1, c2, j :: WorksOn(w, h1, c1, j) && WorksOn(w, h2, c2, j) ==> h1 == h2 && c1 == c2)
    && (forall h, c, j :: WorksOn(w, h, c, j) ==> RunsOn(w.jobs, j, h))
    && (forall h :: h in w.feeders ==> Within(w.feeders[h].children, w.feeders[h].maxFeed))
  }

  lemma InvIsExclusive(w: World)
    requires Inv(w)
    ensures Exclusive(w)
  {
    forall h, c, j | WorksOn(w, h, c, j) ensures RunsOn(w.jobs, j, h) { assert HostOk(w, h); }
    forall h1, h2, c1, c2, j | WorksOn(w, h1, c1, j) && WorksOn(w, h2, c2, j) ensures h1 == h2 && c1 == c2 {
      assert HostOk(w, h1) && HostOk(w, h2);
    }
    forall j | IsRunning(w.jobs, j) ensures Worked(w, j) <==> !AwaitsMorgue(w, j) {
      RunningIsWorked(w, j);
    }
    forall h | h in w.feeders ensures Within(w.feeders[h].children, w.feeders[h].maxFeed) { assert HostOk(w, h); }
  }

  lemma RunningIsWorked(w: World, j: Jid)
    requires Inv(w) && IsRunning(w.jobs, j)
    ensures Worked(w, j) <==> !AwaitsMorgue(w, j)
  {
    assert RowOk(w, j);
    var host := w.jobs[j].runner.value;
    assert HostOk(w, host);
    if AwaitsMorgue(w, j) {
      forall h, c ensures !WorksOn(w, h, c, j) { assert HostOk(w, h); }
    } else {
      assert RunsOn(w.jobs, j, host);
      var cid :| HoldsJob(w.feeders[host].children, cid, j);
      assert WorksOn(w, host, cid, j);
    }
  }

  /** In every run without robbery, no job is ever worked on twice at once or lost while it runs. */
  lemma NoJobIsHeldTwice(es: seq<Event>)
    requires Runs(EMPTY, es) && Unrobbed(EMPTY, es)
    ensures Exclusive(Reached(EMPTY, es))
  {
    assert forall j :: RowOk(EMPTY, j);
    assert forall host :: HostOk(EMPTY, host);
    RunKeeps(EMPTY, es);
    InvIsExclusive(Reached(EMPTY, es));
  }

  /** What clients see breaks by robbery and by nothing else. */
  lemma ExclusiveExactly(w: World, e: Event)
    requires Inv(w) && Enabled(w, e)
    ensures Exclusive(Next(w, e)) <==> !Robs(w, e)
  {
    StepKeepsExactly(w, e);
    if Robs(w, e) {
      DeleteRunning(w.jobs, e.whats, e.force);
      var host, cid :| HasChild(w, host, cid);
      assert WorksOn(Next(w, e), host, cid, w.feeders[host].children[cid].jid);
    } else {
      InvIsExclusive(Next(w, e));
    }
  }

  // ---- dead jobs

  /** Filling the morgue turns exactly the rows left running on its host dead. */
  lemma MorgueBuriesTheLost(w: World, host: HostName, j: Jid)
    requires Inv(w) && Enabled(w, FillMorgue(host)) && j in w.jobs
    ensures Next(w, FillMorgue(host)).jobs[j]
         == if RunsOn(w.jobs, j, host) then w.jobs[j].(state := Dead) else w.jobs[j]
  {
    assert HostOk(w, host);
    if RunsOn(w.jobs, j, host) { assert StartedBy(w.jobs, j, w.feeders[host].started); }
  }

  predicate DeadForGood(t: Table, j: Jid) {
    j in t && t[j].state == Dead && !t[j].restartable
  }

  /** A client resubmits the row, or deletes it. */
  ghost predicate Revives(w: World, e: Event, j: Jid) {
    && j in w.jobs
    && match e
       case Resubmit(whats, _, _, _) => Resubmits(whats, j, w.jobs[j])
       case Delete(whats, force) => Deletes(whats, force, j, w.jobs[j])
       case _ => false
  }

  ghost predicate NeverRevived(w: World, es: seq<Event>, j: Jid)
    requires Runs(w, es)
    decreases |es|
  {
    es == [] || (!Revives(w, es[0], j) && NeverRevived(Next(w, es[0]), es[1..], j))
  }

  lemma MoveStaysDead(w: World, host: HostName, m: Move, j: Jid)
    requires Inv(w) && Ready(w, host, m) && DeadForGood(w.jobs, j)
    ensures DeadForGood(AfterMove(w, host, m).jobs, j)
  {
    assert HostOk(w, host);
    if m.Finish? { assert HoldsJob(w.feeders[host].children, m.cid, w.feeders[host].children[m.cid].jid); }
  }

  lemma {:induction false} FeedStaysDead(w: World, host: HostName, moves: seq<Move>, j: Jid)
    requires Inv(w) && Enabled(w, Feed(host, moves)) && DeadForGood(w.jobs, j)
    ensures DeadForGood(Next(w, Feed(host, moves)).jobs, j)
    decreases |moves|
  {
    if moves != [] {
      FeedSplits(w, host, moves);
      MoveStaysDead(w, host, moves[0], j);
      MoveKeeps(w, host, moves[0]);
      FeedStaysDead(AfterMove(w, host, moves[0]), host, moves[1..], j);
    }
  }

  lemma {:induction false} InsertedKeepsRow(t: Table, next: Jid, rs: seq<Request>, now: Time, submitter: HostName, j: Jid)
    requires j in t && j < next
    ensures j in Inserted(t, next, rs, now, submitter) && Inserted(t, next, rs, now, submitter)[j] == t[j]
    decreases |rs|
  {
    if rs != [] { InsertedKeepsRow(t[next := NewRow(rs[0], now, submitter)], next + 1, rs[1..], now, submitter, j); }
  }

  lemma StepStaysDead(w: World, e: Event, j: Jid)
    requires Inv(w) && Enabled(w, e) && DeadForGood(w.jobs, j) && !Revives(w, e, j)
    ensures DeadForGood(Next(w, e).jobs, j)
  {
    match e
    case Feed(host, moves) => FeedStaysDead(w, host, moves, j);
    case Submit(requests, now, submitter) =>
      InsertedKeepsRow(w.jobs, MaxJid(w.jobs.Keys) + 1, requests, now, submitter, j);
    case _ =>
  }

  /** A dead job that is not restartable never runs again unless a client resubmits it (or deletes the row). */
  lemma {:induction false} DeadStaysDead(w: World, es: seq<Event>, j: Jid)
    requires Inv(w) && Runs(w, es) && Unrobbed(w, es)
    requires DeadForGood(w.jobs, j) && NeverRevived(w, es, j)
    ensures DeadForGood(Reached(w, es).jobs, j)
    decreases |es|
  {
    if es != [] {
      StepKeepsExactly(w, es[0]);
      StepStaysDead(w, es[0], j);
      DeadStaysDead(Next(w, es[0]), es[1..], j);
    }
  }

  /** Dead, or closed by a feeder that was presumed gone, and not restartable. */
  predicate Retired(t: Table, j: Jid) {
    j in t && !t[j].restartable && (t[j].state == Dead || t[j].state == Finished)
  }

  lemma MoveStaysRetired(d: Desk, host: HostName, maxFeed: int, m: Move, j: Jid)
    requires CanMove(d, host, maxFeed, m) && Retired(d.jobs, j)
    ensures Retired(Moved(d, host, maxFeed, m).jobs, j)
  {
  }

  lemma {:induction false} MovesStayRetired(d: Desk, host: HostName, maxFeed: int, moves: seq<Move>, j: Jid)
    requires CanAll(d, host, maxFeed, moves) && Retired(d.jobs, j)
    ensures Retired(MovedAll(d, host, maxFeed, moves).jobs, j)
    decreases |moves|
  {
    if moves != [] {
      MoveStaysRetired(d, host, maxFeed, moves[0], j);
      MovesStayRetired(Moved(d, host, maxFeed, moves[0]), host, maxFeed, moves[1..], j);
    }
  }

  lemma StepStaysRetired(w: World, e: Event, j: Jid)
    requires Enabled(w, e) && Retired(w.jobs, j) && !Revives(w, e, j)
    ensures Retired(Next(w, e).jobs, j)
  {
    match e
    case Feed(host, moves) =>
      MovesStayRetired(Desk(w.jobs, w.feeders[host].children), host, w.feeders[host].maxFeed, moves, j);
    case Submit(requests, now, submitter) =>
      InsertedKeepsRow(w.jobs, MaxJid(w.jobs.Keys) + 1, requests, now, submitter, j);
    case _ =>
  }

  /** In any run at all, from any world, forced deletes included, such a row never runs until a client revives it. */
  lemma {:induction false} RetiredNeverRuns(w: World, es: seq<Event>, j: Jid)
    requires Runs(w, es) && Retired(w.jobs, j) && NeverRevived(w, es, j)
    ensures Retired(Reached(w, es).jobs, j) && !IsRunning(Reached(w, es).jobs, j)
    decreases |es|
  {
    if es != [] {
      StepStaysRetired(w, es[0], j);
      RetiredNeverRuns(Next(w, es[0]), es[1..], j);
    }
  }

  // ---- why running rows must not be deleted by force

  const ORDER := Request(Some("sleep 1"), None, None, None, false)

  /** Job 1 runs on a. */
  const STARTED: seq<Event> := [
    Boot("a", 0, 2), FillMorgue("a"), Submit([ORDER], 1, "c"), Feed("a", [Start(1, 7, 2)])]

  /** A client deletes the running rows by force; a new job gets the freed jid and runs on b. */
  const REUSED: seq<Event> := [
    Delete([InState(Running)], true), Submit([ORDER], 3, "c"), Boot("b", 4, 2), FillMorgue("b"), Feed("b", [Start(1, 9, 5)])]

  function RowFrom(now: Time): Job {
    NewRow(ORDER, now, "c")
  }

  function Holding1(host: HostName, now: Time, sub: Time, cid: Cid): Feeder {
    Feeder(0, 2, true, map[cid := Child(1, StartedRow(RowFrom(sub), host, now, cid))])
  }

  lemma FirstStart(w: World, host: HostName, m: Move, sub: Time)
    requires m.Start? && m.jid == 1 && w.jobs == map[1 := RowFrom(sub)]
    requires host in w.feeders && w.feeders[host].filled && w.feeders[host].children == map[]
    requires w.feeders[host].maxFeed == 2 && host in w.clocks && w.clocks[host] <= m.now
    ensures Enabled(w, Feed(host, [m]))
    ensures Next(w, Feed(host, [m])) == AfterMove(w, host, m)
    ensures CanMove(Desk(w.jobs, map[]), host, 2, m)
  {
    var f := w.feeders[host];
    LeadsOne(Desk(w.jobs, f.children), host, f.maxFeed, m);
    assert [m][1..] == [];
    assert Timed(m.now, []);
  }

  lemma RunsOneMore(w: World, e: Event, es: seq<Event>)
    requires Enabled(w, e) && Runs(Next(w, e), es)
    ensures Runs(w, [e] + es) && Reached(w, [e] + es) == Reached(Next(w, e), es)
  {
    assert ([e] + es)[1..] == es;
  }

  lemma OneRowInserted(now: Time)
    ensures Submitted(map[], [ORDER], now, "c") == map[1 := RowFrom(now)]
  {
    assert [ORDER][1..] == [];
    var t: Table := map[];
    assert t.Keys == {};
    assert MaxJid(t.Keys) == 0;
    assert Inserted(t[1 := RowFrom(now)], 2, [], now, "c") == t[1 := RowFrom(now)];
  }

  const WORKED: World := World(
    map[1 := StartedRow(RowFrom(1), "a", 2, 7)], map["a" := Holding1("a", 2, 1, 7)], map["a" := 2])

  lemma StartedWorld()
    ensures Runs(EMPTY, STARTED) && Reached(EMPTY, STARTED) == WORKED
  {
    var w1 := World(map[], map["a" := Feeder(0, 2, false, map[])], map["a" := 0]);
    var w2 := World(map[], map["a" := Feeder(0, 2, true, map[])], map["a" := 0]);
    var w3 := w2.(jobs := map[1 := RowFrom(1)]);
    assert Next(EMPTY, STARTED[0]) == w1;
    assert Next(w1, STARTED[1]) == w2;
    OneRowInserted(1);
    assert Next(w2, STARTED[2]) == w3;
    FirstStart(w3, "a", Start(1, 7, 2), 1);
    assert Next(w3, STARTED[3]) == WORKED;
    RunsOneMore(w3, STARTED[3], []);
    RunsOneMore(w2, STARTED[2], [STARTED[3]]);
    RunsOneMore(w1, STARTED[1], [STARTED[2]] + [STARTED[3]]);
    RunsOneMore(EMPTY, STARTED[0], [STARTED[1]] + ([STARTED[2]] + [STARTED[3]]));
    assert STARTED == [STARTED[0]] + ([STARTED[1]] + ([STARTED[2]] + [STARTED[3]]));
  }

  const FREED: World := WORKED.(jobs := map[])

  lemma FreedByForce()
    ensures Next(WORKED, REUSED[0]) == FREED && Robs(WORKED, REUSED[0])
  {
    DeleteRunning(WORKED.jobs, [InState(Running)], true);
    assert IsRunning(WORKED.jobs, 1);
    assert forall j :: j in WORKED.jobs ==> IsRunning(WORKED.jobs, j);
    assert forall j :: j !in Deleted(WORKED.jobs, [InState(Running)], true);
    assert HasChild(WORKED, "a", 7);
  }

  const TWICE: World := World(
    map[1 := StartedRow(RowFrom(3), "b", 5, 9)],
    map["a" := Holding1("a", 2, 1, 7), "b" := Holding1("b", 5, 3, 9).(started := 4)], map["a" := 2, "b" := 5])

  lemma ReusedWorld()
    ensures Runs(WORKED, REUSED) && Reached(WORKED, REUSED) == TWICE
  {
    var a := Holding1("a", 2, 1, 7);
    var w2 := FREED.(jobs := map[1 := RowFrom(3)]);
    var w3 := World(w2.jobs, map["a" := a, "b" := Feeder(4, 2, false, map[])], map["a" := 2, "b" := 4]);
    var w4 := World(w2.jobs, map["a" := a, "b" := Feeder(4, 2, true, map[])], map["a" := 2, "b" := 4]);
    FreedByForce();
    OneRowInserted(3);
    assert Next(FREED, REUSED[1]) == w2;
    assert Next(w2, REUSED[2]) == w3;
    assert Next(w3, REUSED[3]) == w4;
    FirstStart(w4, "b", Start(1, 9, 5), 3);
    assert Next(w4, REUSED[4]) == TWICE;
    RunsOneMore(w4, REUSED[4], []);
    RunsOneMore(w3, REUSED[3], [REUSED[4]]);
    RunsOneMore(w2, REUSED[2], [REUSED[3]] + [REUSED[4]]);
    RunsOneMore(FREED, REUSED[1], [REUSED[2]] + ([REUSED[3]] + [REUSED[4]]));
    RunsOneMore(WORKED, REUSED[0], [REUSED[1]] + ([REUSED[2]] + ([REUSED[3]] + [REUSED[4]])));
    assert REUSED == [REUSED[0]] + ([REUSED[1]] + ([REUSED[2]] + ([REUSED[3]] + [REUSED[4]])));
  }

  lemma {:induction false} ReachedOn(w: World, a: seq<Event>, b: seq<Event>)
    requires Runs(w, a) && Runs(Reached(w, a), b)
    ensures Runs(w, a + b) && Reached(w, a + b) == Reached(Reached(w, a), b)
    decreases |a|
  {
    if a == [] {
      assert a + b == b;
    } else {
      assert (a + b)[1..] == a[1..] + b;
      ReachedOn(Next(w, a[0]), a[1..], b);
    }
  }

  /** The freed jid lets two live feeders hold job 1, and when the first one's process ends it closes the other's row. */
  lemma RobberyLetsTwoHoldOne()
    ensures Runs(EMPTY, STARTED + REUSED)
    ensures WorksOn(Reached(EMPTY, STARTED + REUSED), "a", 7, 1)
    ensures WorksOn(Reached(EMPTY, STARTED + REUSED), "b", 9, 1)
    ensures Enabled(TWICE, Feed("a", [Finish(7, 6, Some(0))]))
    ensures Next(TWICE, Feed("a", [Finish(7, 6, Some(0))])).jobs[1].state == Finished
    ensures WorksOn(Next(TWICE, Feed("a", [Finish(7, 6, Some(0))])), "b", 9, 1)
  {
    StartedWorld();
    ReusedWorld();
    ReachedOn(EMPTY, STARTED, REUSED);
    var f := TWICE.feeders["a"];
    LeadsOne(Desk(TWICE.jobs, f.children), "a", f.maxFeed, Finish(7, 6, Some(0)));
    assert [Finish(7, 6, Some(0))][1..] == [];
    assert Timed(6, []);
    assert HoldsJob(TWICE.feeders["b"].children, 9, 1);
  }
}

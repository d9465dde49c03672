/**
 * The feeder's own transactions are steps of the protocol: whatever other hosts and clients commit in between, a feeder's
 * life is a run of it.
 */
module FeederRuns {

  import opened JobTable
  import opened JobMoves
  import opened JobProtocol
  import F = Feeder

  /** In this world the feeder of host is f, and its clock shows this time. */
  ghost predicate LiveIn(w: World, host: HostName, f: Feeder, clock: Time) {
    host in w.feeders && w.feeders[host] == f && host in w.clocks && w.clocks[host] == clock
  }

  /** The first transaction, in any world whose table it found. */
  lemma MorgueIsStep(w: World, host: HostName, f: Feeder, clock: Time, morgue: Table)
    requires LiveIn(w, host, f, clock) && !f.filled && morgue == Buried(w.jobs, host, f.started)
    ensures Enabled(w, FillMorgue(host)) && Next(w, FillMorgue(host)).jobs == morgue
    ensures LiveIn(Next(w, FillMorgue(host)), host, f.(filled := true), clock)
  {}

  /** Any later transaction, in any world whose table it found. */
  lemma CommitIsStep(w: World, host: HostName, f: Feeder, clock: Time, c: F.Commit)
    requires LiveIn(w, host, f, clock) && f.filled && c.before == Desk(w.jobs, f.children)
    requires Leads(c.before, host, f.maxFeed, c.moves, c.after) && Timed(clock, c.moves)
    ensures Enabled(w, Feed(host, c.moves)) && Next(w, Feed(host, c.moves)).jobs == c.after.jobs
    ensures LiveIn(Next(w, Feed(host, c.moves)), host, f.(children := c.after.children), LastTime(clock, c.moves))
  {}

  // ---- what others do in between

  /** An event that is not of this host's feeder. */
  predicate Foreign(e: Event, host: HostName) {
    match e
    case Boot(h, _, _) => h != host
    case FillMorgue(h) => h != host
    case Feed(h, _) => h != host
    case Crash(h) => h != host
    case _ => true
  }

  ghost predicate AllForeign(es: seq<Event>, host: HostName) {
    forall i | 0 <= i < |es| :: Foreign(es[i], host)
  }

  lemma {:induction false} ForeignLeaves(w: World, es: seq<Event>, host: HostName, f: Feeder, clock: Time)
    requires Runs(w, es) && AllForeign(es, host) && LiveIn(w, host, f, clock)
    ensures LiveIn(Reached(w, es), host, f, clock)
    decreases |es|
  {
    if es != [] {
      assert Foreign(es[0], host);
      forall i | 0 <= i < |es[1..]| ensures Foreign(es[1..][i], host) { assert Foreign(es[i + 1], host); }
      ForeignLeaves(Next(w, es[0]), es[1..], host, f, clock);
    }
  }

  /** Before transaction number i the others' events number i lead to the table it finds. */
  ghost predicate Meets(w: World, host: HostName, commits: seq<F.Commit>, others: seq<seq<Event>>)
    decreases |commits|
  {
    |others| == |commits| &&
    (commits != [] ==>
      && AllForeign(others[0], host) && Runs(w, others[0]) && Reached(w, others[0]).jobs == commits[0].before.jobs
      && (Enabled(Reached(w, others[0]), Feed(host, commits[0].moves)) ==>
            Meets(Next(Reached(w, others[0]), Feed(host, commits[0].moves)), host, commits[1..], others[1..])))
  }

  /** The feeder's transactions among the others' events. */
  function Woven(host: HostName, commits: seq<F.Commit>, others: seq<seq<Event>>): seq<Event>
    requires |others| == |commits|
  {
    if commits == [] then [] else others[0] + ([Feed(host, commits[0].moves)] + Woven(host, commits[1..], others[1..]))
  }

  lemma {:induction false} LifeIsRun(w: World, host: HostName, f: Feeder, clock: Time, commits: seq<F.Commit>,
                                     others: seq<seq<Event>>, children2: Children)
    requires LiveIn(w, host, f, clock) && f.filled && Meets(w, host, commits, others)
    requires F.Life(commits, host, f.maxFeed, f.children, children2) && Timed(clock, F.AllMoves(commits))
    ensures Runs(w, Woven(host, commits, others))
    ensures LiveIn(Reached(w, Woven(host, commits, others)), host, f.(children := children2), LastTime(clock, F.AllMoves(commits)))
    decreases |commits|
  {
    if commits != [] {
      var c, rest := commits[0], F.AllMoves(commits[1..]);
      var w1, e := Reached(w, others[0]), Feed(host, c.moves);
      ForeignLeaves(w, others[0], host, f, clock);
      TimedSplit(clock, c.moves, rest);
      CommitIsStep(w1, host, f, clock, c);
      LifeIsRun(Next(w1, e), host, f.(children := c.after.children), LastTime(clock, c.moves), commits[1..], others[1..], children2);
      WovenOne(w, others[0], e, Woven(host, commits[1..], others[1..]));
    }
  }

  lemma WovenOne(w: World, a: seq<Event>, e: Event, b: seq<Event>)
    requires Runs(w, a) && Enabled(Reached(w, a), e) && Runs(Next(Reached(w, a), e), b)
    ensures Runs(w, a + ([e] + b)) && Reached(w, a + ([e] + b)) == Reached(Next(Reached(w, a), e), b)
  {
    assert ([e] + b)[1..] == b;
    ReachedOn(w, a, [e] + b);
  }

  lemma {:induction false} TimedSplit(clock: Time, a: seq<Move>, b: seq<Move>)
    requires Timed(clock, a + b)
    ensures Timed(clock, a) && Timed(LastTime(clock, a), b) && LastTime(clock, a + b) == LastTime(LastTime(clock, a), b)
    decreases |a|
  {
    if a == [] {
      assert a + b == b;
    } else {
      assert (a + b)[1..] == a[1..] + b;
      TimedSplit(a[0].now, a[1..], b);
    }
  }

  /**
   * From its start on, whatever others do before the morgue and between transactions, what a feeder does is a run of the
   * protocol; so if nothing robs it, no job is worked on twice.
   */
  lemma WholeLifeIsRun(w: World, host: HostName, f: Feeder, clock: Time, first: seq<Event>, morgue: Table,
                       commits: seq<F.Commit>, others: seq<seq<Event>>, children2: Children) returns (es: seq<Event>)
    requires LiveIn(w, host, f, clock) && !f.filled && f.children == map[]
    requires AllForeign(first, host) && Runs(w, first) && morgue == Buried(Reached(w, first).jobs, host, f.started)
    requires F.Life(commits, host, f.maxFeed, map[], children2) && Timed(clock, F.AllMoves(commits))
    requires Enabled(Reached(w, first), FillMorgue(host)) ==>
      Meets(Next(Reached(w, first), FillMorgue(host)), host, commits, others)
    ensures |others| == |commits| && es == first + ([FillMorgue(host)] + Woven(host, commits, others))
    ensures Runs(w, es)
    ensures LiveIn(Reached(w, es), host, f.(filled := true, children := children2), LastTime(clock, F.AllMoves(commits)))
    ensures Inv(w) && Unrobbed(w, es) ==> Exclusive(Reached(w, es))
  {
    ForeignLeaves(w, first, host, f, clock);
    var w1 := Reached(w, first);
    MorgueIsStep(w1, host, f, clock, morgue);
    var w2 := Next(w1, FillMorgue(host));
    LifeIsRun(w2, host, f.(filled := true), clock, commits, others, children2);
    WovenOne(w, first, FillMorgue(host), Woven(host, commits, others));
    es := first + ([FillMorgue(host)] + Woven(host, commits, others));
    if Inv(w) && Unrobbed(w, es) {
      RunKeeps(w, es);
      InvIsExclusive(Reached(w, es));
    }
  }
}

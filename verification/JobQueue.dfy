/** The queue object (lib/rq/jobqueue.rb): its methods change the jobs table inside the caller's transaction. */
module JobQueue {

  import opened Wrappers
  import opened JobTable

  predicate HasId(whats: seq<What>) {
    exists w :: w in whats && w.Id?
  }

  class Queue {
    var jobs: Table

    constructor ()
      ensures jobs == map[]
    {
      jobs := map[];
    }

    /** select ... order by priority desc, submitted asc, jid asc limit 1 */
    method GetJob(name: HostName) returns (first: Option<Jid>)
      ensures first.Some? ==> IsNext(jobs, name, first.value)
      ensures first.None? ==> forall j :: !Eligible(jobs, name, j)
    {
      first := None;
      var rest := jobs.Keys;
      while rest != {}
        invariant rest <= jobs.Keys
        invariant first.Some? ==> Eligible(jobs, name, first.value) && first.value !in rest
        invariant first.None? ==> forall j :: j in jobs && j !in rest ==> !Eligible(jobs, name, j)
        invariant forall j :: first.Some? && j !in rest && Eligible(jobs, name, j) && j != first.value ==>
          Before(jobs, first.value, j)
        decreases |rest|
      {
        var j :| j in rest;
        rest := rest - {j};
        if Eligible(jobs, name, j) && (first.None? || Before(jobs, j, first.value)) {
          first := Some(j);
        }
      }
    }

    /** Stores the columns start_job filled in. */
    method JobIsRunning(j: Jid, job: Job)
      modifies this
      ensures jobs == if j in old(jobs)
        then old(jobs)[j := old(jobs)[j].(pid := job.pid, state := job.state, started := job.started,
                                          runner := job.runner)]
        else old(jobs)
    {
      if j in jobs {
        jobs := jobs[j := jobs[j].(pid := job.pid, state := job.state, started := job.started, runner := job.runner)];
      }
    }

    method JobIsDone(j: Jid, job: Job)
      modifies this
      ensures jobs == Done(old(jobs), j, job)
    {
      if j in jobs {
        jobs := jobs[j := jobs[j].(state := job.state, exitStatus := job.exitStatus, finished := job.finished,
                                   elapsed := job.elapsed)];
      }
    }

    method GetDeadJobs(name: HostName, started: Time) returns (dead: set<Jid>)
      ensures forall j :: j in dead <==> j in jobs && IsDeadJob(jobs[j], name, started)
    {
      dead := set j | j in jobs && IsDeadJob(jobs[j], name, started);
    }

    method JobIsDead(j: Jid)
      modifies this
      ensures jobs == if j in old(jobs) then old(jobs)[j := old(jobs)[j].(state := Dead)] else old(jobs)
    {
      if j in jobs {
        jobs := jobs[j := jobs[j].(state := Dead)];
      }
    }

    /** select max(jid) from jobs; 0 when there is none */
    method LastJid() returns (m: Jid)
      ensures m == MaxJid(jobs.Keys)
    {
      m := 0;
      var rest := jobs.Keys;
      while rest != {}
        invariant rest <= jobs.Keys
        invariant forall j :: j in jobs && j !in rest ==> j <= m
        invariant rest == jobs.Keys ==> m == 0
        invariant rest != jobs.Keys ==> m in jobs
        decreases |rest|
      {
        var j :| j in rest;
        if rest == jobs.Keys || j > m { m := j; }
        rest := rest - {j};
      }
    }

    method Submit(requests: seq<Request>, now: Time, submitter: HostName) returns (ok: bool)
      modifies this
      ensures ok <==> AllCommands(requests)
      ensures jobs == Submitted(old(jobs), requests, now, submitter)
    {
      var before := jobs;
      var jid := LastJid();
      jid := jid + 1;
      var i := 0;
      while i < |requests|
        invariant 0 <= i <= |requests|
        invariant forall k :: 0 <= k < i ==> requests[k].command.Some?
        invariant Inserted(before, MaxJid(before.Keys) + 1, requests, now, submitter)
               == Inserted(jobs, jid, requests[i..], now, submitter)
      {
        if requests[i].command.None? {
          jobs := before; // the exception rolls the transaction back
          return false;
        }
        jobs := jobs[jid := NewRow(requests[i], now, submitter)];
        jid := jid + 1;
        i := i + 1;
      }
      return true;
    }

    /** select * from jobs where ... */
    method List(whats: seq<What>) returns (listed: set<Jid>)
      ensures forall j :: j in listed <==> j in jobs && Listed(whats, j, jobs[j])
    {
      listed := set j | j in jobs && Listed(whats, j, jobs[j]);
    }

    /** Writes one row anew, whatever its state. */
    method Resubmit(j: Jid, request: Request, now: Time, submitter: HostName) returns (ok: bool)
      modifies this
      ensures ok <==> request.command.Some?
      ensures jobs == if ok && j in old(jobs) then old(jobs)[j := NewRow(request, now, submitter)] else old(jobs)
    {
      ok := request.command.Some?;
      if ok && j in jobs {
        jobs := jobs[j := NewRow(request, now, submitter)];
      }
    }

    /** One delete statement a word; no word means all. */
    method Delete(whats: seq<What>, force: bool)
      modifies this
      ensures jobs == Deleted(old(jobs), whats, force)
    {
      ghost var before := jobs;
      var words := if whats == [] then [All] else whats;
      var i := 0;
      while i < |words|
        invariant 0 <= i <= |words|
        invariant forall j :: j in jobs ==> j in before && jobs[j] == before[j]
        invariant forall j :: j in before ==>
          (j in jobs <==> forall k :: 0 <= k < i ==> !DeletedBy(words[k], force, j, before[j]))
      {
        jobs := map j | j in jobs && !DeletedBy(words[i], force, j, jobs[j]) :: jobs[j];
        i := i + 1;
      }
      forall j | j in before
        ensures Deletes(whats, force, j, before[j]) <==> exists k :: 0 <= k < |words| && DeletedBy(words[k], force, j, before[j])
      {
        if whats == [] { assert words[0] == All; }
      }
    }

    method Update(changes: Changes, whats: seq<What>) returns (ok: bool)
      modifies this
      ensures ok <==> Allowed(changes) && (HasId(whats) || exists j :: j in old(jobs) && Updates(whats, j, old(jobs)[j]))
      ensures jobs == Updated(old(jobs), changes, whats)
    {
      ok := false;
      if Allowed(changes) {
        var chosen := set j | j in jobs && Updates(whats, j, jobs[j]);
        ok := chosen != {} || HasId(whats);
        assert forall j :: j in chosen <==> j in old(jobs) && Updates(whats, j, old(jobs)[j]);
        assert chosen != {} <==> exists j :: j in chosen;
        jobs := map j | j in jobs :: if j in chosen then Changed(jobs[j], changes) else jobs[j];
      }
    }
  }

  /** The command that resubmits listed rows (lib/rq/resubmitter.rb), all in one transaction, skipping running ones. */
  class ReSubmitter {
    const q: Queue

    constructor (q: Queue)
      ensures this.q == q
    {
      this.q := q;
    }

    method Resubmit(whats: seq<What>, options: Options, now: Time, submitter: HostName) returns (ok: bool)
      modifies q
      ensures q.jobs == Resubmitted(old(q.jobs), whats, options, now, submitter)
      ensures ok <==> whats != [] && forall j :: j in old(q.jobs) && Resubmits(whats, j, old(q.jobs)[j]) ==> old(q.jobs)[j].command.Some?
    {
      var before := q.jobs;
      if whats == [] {
        assert q.jobs == Resubmitted(before, whats, options, now, submitter);
        return false;
      }
      var rest := q.List(whats);
      while rest != {}
        invariant rest <= before.Keys && q.jobs.Keys == before.Keys
        invariant forall j :: j in rest ==> Listed(whats, j, before[j])
        invariant forall j :: j in before && Resubmits(whats, j, before[j]) && j !in rest ==>
          before[j].command.Some? && q.jobs[j] == NewRow(Asked(before[j], options), now, submitter)
        invariant forall j :: j in before && (j in rest || !Resubmits(whats, j, before[j])) ==> q.jobs[j] == before[j]
        decreases |rest|
      {
        var j :| j in rest;
        rest := rest - {j};
        if before[j].state != Running {
          ok := q.Resubmit(j, Asked(before[j], options), now, submitter);
          if !ok {
            q.jobs := before; // the exception rolls the transaction back
            assert Resubmits(whats, j, before[j]);
            return;
          }
        }
      }
      ok := true;
      assert q.jobs == Resubmitted(before, whats, options, now, submitter);
    }
  }
}

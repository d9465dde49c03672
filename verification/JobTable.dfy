/**
 * The jobs table of rq (lib/rq/qdb.rb, lib/rq/jobqueue.rb) as a map from jid to row, and what each statement of the
 * protocol does to it.
 */
module JobTable {

  import opened Wrappers

  type Jid = nat
  /** Process number of a runner. */
  type Cid = int
  /** Timestamps are fixed-width strings, ordered as the moments they name. */
  type Time = int
  type HostName = string

  datatype State = Pending | Holding | Running | Finished | Dead

  datatype Job = Job(
    command: Option<string>, priority: int, tag: Option<string>, state: State,
    submitted: Time, submitter: HostName,
    started: Option<Time>, finished: Option<Time>, elapsed: Option<int>,
    runner: Option<string>, restartable: bool, pid: Option<Cid>, exitStatus: Option<int>)

  type Table = map<Jid, Job>

  // ---- hosts

  /** The host name up to its first dot. */
  function Host(name: HostName): string {
    if name == "" || name[0] == '.' then "" else [name[0]] + Host(name[1..])
  }

  /** LIKE folds the case of ASCII letters. */
  function Fold(c: char): char {
    if 'A' <= c <= 'Z' then (c as int + 32) as char else c
  }

  /** An underscore stands for any character. */
  predicate MatchesAt(text: string, part: string, i: nat) {
    && i + |part| <= |text|
    && forall k :: 0 <= k < |part| ==> part[k] == '_' || Fold(part[k]) == Fold(text[i + k])
  }

  /** text like '%part%', for a part that is a host name and so has no % of its own */
  predicate Like(text: string, part: string) {
    exists i :: 0 <= i <= |text| && MatchesAt(text, part, i)
  }

  // ---- choosing a job

  predicate Startable(job: Job) {
    job.state == Pending || (job.state == Dead && job.restartable)
  }

  predicate Eligible(t: Table, name: HostName, j: Jid) {
    && j in t && Startable(t[j])
    && (t[j].runner.None? || Like(t[j].runner.value, Host(name)))
  }

  /** order by priority desc, submitted asc, jid asc */
  predicate Before(t: Table, a: Jid, b: Jid)
    requires a in t && b in t
  {
    var x, y := t[a], t[b];
    || x.priority > y.priority
    || (x.priority == y.priority && (x.submitted < y.submitted || (x.submitted == y.submitted && a < b)))
  }

  /** j comes first among the rows this host may start. */
  ghost predicate IsNext(t: Table, name: HostName, j: Jid) {
    && Eligible(t, name, j)
    && forall k :: Eligible(t, name, k) && k != j ==> Before(t, j, k)
  }

  // ---- what the feeder writes

  /** The row as start_job fills it in; jobisrunning stores these columns. */
  function StartedRow(job: Job, name: HostName, now: Time, cid: Cid): Job {
    job.(state := Running, started := Some(now), runner := Some(name), pid := Some(cid))
  }

  /** The row as finish_job fills it in. */
  function FinishedRow(job: Job, now: Time, status: Option<int>): Job {
    job.(state := Finished, finished := Some(now),
         elapsed := if job.started.Some? then Some(now - job.started.value) else None, exitStatus := status)
  }

  /** jobisdone copies four columns of the feeder's record into the row of that jid, if there is one. */
  function DoneRow(row: Job, job: Job): Job {
    row.(state := job.state, exitStatus := job.exitStatus, finished := job.finished, elapsed := job.elapsed)
  }

  function Done(t: Table, j: Jid, job: Job): Table {
    if j in t then t[j := DoneRow(t[j], job)] else t
  }

  /** getdeadjobs: rows this host was running when its feeder came up. */
  predicate IsDeadJob(job: Job, name: HostName, started: Time) {
    job.state == Running && job.runner == Some(name) && job.started.Some? && job.started.value <= started
  }

  function Buried(t: Table, name: HostName, started: Time): Table {
    map j | j in t :: if IsDeadJob(t[j], name, started) then t[j].(state := Dead) else t[j]
  }

  // ---- what clients write

  /** One job of a submit call. */
  datatype Request = Request(command: Option<string>, priority: Option<int>, tag: Option<string>,
                             runner: Option<string>, restartable: bool)

  /** Rows are always stored pending. */
  function NewRow(r: Request, now: Time, submitter: HostName): Job {
    Job(r.command, if r.priority.Some? then r.priority.value else 0, r.tag, Pending, now, submitter,
        None, None, None, r.runner, r.restartable, None, None)
  }

  ghost function MaxJid(s: set<Jid>): (m: Jid)
    ensures forall j :: j in s ==> j <= m
    ensures s == {} ==> m == 0
    ensures s != {} ==> m in s
  {
    if s == {} then 0
    else
      var j :| j in s;
      var m := MaxJid(s - {j});
      assert s == s - {j} + {j};
      if j >= m then j else m
  }

  function Inserted(t: Table, next: Jid, rs: seq<Request>, now: Time, submitter: HostName): Table
    decreases |rs|
  {
    if rs == [] then t
    else Inserted(t[next := NewRow(rs[0], now, submitter)], next + 1, rs[1..], now, submitter)
  }

  predicate AllCommands(rs: seq<Request>) {
    forall r :: r in rs ==> r.command.Some?
  }

  /** submit: jids from max(jid) + 1 on; a job without a command rolls the whole call back. */
  ghost function Submitted(t: Table, rs: seq<Request>, now: Time, submitter: HostName): Table {
    if AllCommands(rs) then Inserted(t, MaxJid(t.Keys) + 1, rs, now, submitter) else t
  }

  /** Command line words naming rows. */
  datatype What = Id(jid: Jid) | InState(state: State) | All

  /** list: 'all', or no word, means every row that is not holding. */
  predicate Listed(whats: seq<What>, j: Jid, job: Job) {
    if whats == [] || All in whats then job.state != Holding
    else Id(j) in whats || InState(job.state) in whats
  }

  /** What resubmit's options replace in a listed row. */
  datatype Options = Options(priority: Option<Option<int>>, tag: Option<Option<string>>,
                             runner: Option<Option<string>>, restartable: Option<bool>)

  function Asked(job: Job, o: Options): Request {
    Request(job.command,
            if o.priority.Some? then o.priority.value else Some(job.priority),
            if o.tag.Some? then o.tag.value else job.tag,
            if o.runner.Some? then o.runner.value else job.runner,
            if o.restartable.Some? then o.restartable.value else job.restartable)
  }

  /** The command aborts if no job is named. */
  predicate Resubmits(whats: seq<What>, j: Jid, job: Job) {
    whats != [] && Listed(whats, j, job) && job.state != Running
  }

  /** Every listed row that is not running is written anew, under its own jid; a row without a command rolls back. */
  function Resubmitted(t: Table, whats: seq<What>, o: Options, now: Time, submitter: HostName): Table {
    if exists j :: j in t && Resubmits(whats, j, t[j]) && t[j].command.None? then t
    else map j | j in t :: if Resubmits(whats, j, t[j]) then NewRow(Asked(t[j], o), now, submitter) else t[j]
  }

  /** Does the delete statement of this word remove the row? Running rows go only by name and force. */
  predicate DeletedBy(w: What, force: bool, j: Jid, job: Job) {
    match w
    case Id(n) => n == j && job.state != Running
    case InState(Running) => force && job.state == Running
    case InState(s) => job.state == s
    case All => job.state != Running
  }

  predicate Deletes(whats: seq<What>, force: bool, j: Jid, job: Job) {
    if whats == [] then DeletedBy(All, force, j, job)
    else exists w :: w in whats && DeletedBy(w, force, j, job)
  }

  function Deleted(t: Table, whats: seq<What>, force: bool): Table {
    map j | j in t && !Deletes(whats, force, j, t[j]) :: t[j]
  }

  /** update: new values for the columns a client may set. */
  datatype Changes = Changes(command: Option<Option<string>>, priority: Option<int>, tag: Option<Option<string>>,
                             runner: Option<Option<string>>, restartable: Option<bool>, state: Option<string>)

  /** Only words starting with p or h are states a client may ask for. */
  function Wanted(state: string): Option<State> {
    if state == "" then None
    else if state[0] in {'p', 'P'} then Some(Pending)
    else if state[0] in {'h', 'H'} then Some(Holding)
    else None
  }

  predicate Allowed(c: Changes) {
    c.state.Some? ==> Wanted(c.state.value).Some?
  }

  function Changed(job: Job, c: Changes): Job
    requires Allowed(c)
  {
    job.(command := if c.command.Some? then c.command.value else job.command,
         priority := if c.priority.Some? then c.priority.value else job.priority,
         tag := if c.tag.Some? then c.tag.value else job.tag,
         runner := if c.runner.Some? then c.runner.value else job.runner,
         restartable := if c.restartable.Some? then c.restartable.value else job.restartable,
         state := if c.state.Some? then Wanted(c.state.value).value else job.state)
  }

  predicate Waiting(job: Job) {
    job.state == Pending || job.state == Holding
  }

  /** Words are jids, 'pending' and 'holding'. */
  predicate Updates(whats: seq<What>, j: Jid, job: Job) {
    Waiting(job) && (Id(j) in whats || InState(job.state) in whats)
  }

  function Updated(t: Table, c: Changes, whats: seq<What>): Table {
    if Allowed(c) then map j | j in t :: if Updates(whats, j, t[j]) then Changed(t[j], c) else t[j] else t
  }
}

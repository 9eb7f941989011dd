/** Jobs and the propagation of failures to their descendants. The class is proved against
    functions on snapshots of the state that the jobs hold. */
module Jobs {
  import opened Options

  datatype Status =
    | WAITING | READY | SUBMITTED | QUEUING | RUNNING | COMPLETED | HELD
    | PREPARED | SKIPPED | FAILED | DELAYED | UNKNOWN | SUSPENDED

  /** A line of a poll: a job, how many fields the line has, and when the job started. */
  datatype PollLine = PollLine(name: string, fields: nat, start: int)

  datatype Reason = Cancelling | HeldByUser | HeldByAdmin | Other

  /** Whatever the platform answers to the questions put to it, the n-th one getting the n-th
      answer. Nothing is assumed about the answers. */
  datatype Answers = Answers(yes: nat -> bool, poll: nat -> seq<PollLine>, completed: nat -> set<string>,
                             reason: nat -> Reason)

  class Platform {
    const answers: Answers
    const slurm: bool
    var now: nat

    constructor (answers: Answers, slurm: bool) {
      this.answers, this.slurm, this.now := answers, slurm, 0;
    }

    /** A question about a file, or about the clock. */
    method Ask() returns (b: bool)
      modifies this
      ensures b == answers.yes(old(now)) && now == old(now) + 1
    {
      b := answers.yes(now);
      now := now + 1;
    }

    method Poll() returns (lines: seq<PollLine>)
      modifies this
      ensures lines == answers.poll(old(now)) && now == old(now) + 1
    {
      lines := answers.poll(now);
      now := now + 1;
    }

    method CheckCompletedFiles() returns (names: set<string>)
      modifies this
      ensures names == answers.completed(old(now)) && now == old(now) + 1
    {
      names := answers.completed(now);
      now := now + 1;
    }

    method QueueReason() returns (r: Reason)
      modifies this
      ensures r == answers.reason(old(now)) && now == old(now) + 1
    {
      r := answers.reason(now);
      now := now + 1;
    }
  }

  /** The fields of a job that change while it is checked. */
  datatype JobState = JobState(status: Status, newStatus: Status, prevStatus: Status, failCount: int, hold: string)

  type Snapshot = map<Job, JobState>

  /** Who depends on whom, which stays fixed while jobs are checked. `children` lists each set
      of children in the order in which it is iterated. */
  datatype Graph = Graph(parents: map<Job, set<Job>>, children: map<Job, seq<Job>>) {
    function Jobs(): set<Job> { parents.Keys }

    predicate Closed() {
      && children.Keys == parents.Keys
      && (forall j :: j in parents ==> parents[j] <= parents.Keys)
      && (forall j :: j in children ==> forall k :: k in children[j] ==> k in parents)
    }

    function Children(j: Job): seq<Job> { if j in children then children[j] else [] }

    function Parents(j: Job): set<Job> { if j in parents then parents[j] else {} }
  }

  ghost function Snap(jobs: set<Job>): Snapshot
    reads jobs
  {
    map j | j in jobs :: JobState(j.status, j.newStatus, j.prevStatus, j.failCount, j.hold)
  }

  /** The state of the jobs, and how many questions the platform has answered. */
  datatype Step = Step(jobs: Snapshot, now: nat)

  ghost function WithStatus(st: Snapshot, j: Job, s: Status): Snapshot {
    if j in st then st[j := st[j].(status := s)] else st
  }

  ghost function WithNewStatus(st: Snapshot, j: Job, s: Status): Snapshot {
    if j in st then st[j := st[j].(newStatus := s)] else st
  }

  ghost function WithHold(st: Snapshot, j: Job, hold: string): Snapshot {
    if j in st then st[j := st[j].(hold := hold)] else st
  }

  ghost function WithFailCount(st: Snapshot, j: Job): Snapshot {
    if j in st then st[j := st[j].(failCount := j.retrials)] else st
  }

  ghost function WithPrevStatus(st: Snapshot, j: Job): Snapshot {
    if j in st then st[j := st[j].(prevStatus := st[j].status)] else st
  }

  /** `check_completion`: completed if the COMPLETED file is there, else the default. */
  ghost function Completion(a: Answers, s: Step, j: Job, default: Status): Step {
    Step(WithStatus(s.jobs, j, if a.yes(s.now) then COMPLETED else default), s.now + 1)
  }

  /** The job takes its new status; a completed one only if its COMPLETED file is there. */
  ghost function Renewed(a: Answers, s: Step, j: Job): (r: Step)
    requires j in s.jobs
    ensures r.jobs.Keys == s.jobs.Keys
  {
    var news := s.jobs[j].newStatus;
    if news == COMPLETED then Completion(a, s, j, FAILED) else s.(jobs := WithStatus(s.jobs, j, news))
  }

  /** `update_status` of a job whose new status has been set. */
  ghost function Updated(g: Graph, a: Answers, s: Step, j: Job, failedFile: bool): Step {
    if j !in s.jobs then s
    else
      var s0 := s.(jobs := WithPrevStatus(s.jobs, j));
      var s1 := Renewed(a, s0, j);
      match s1.jobs[j].status
      case FAILED => if failedFile then s1 else s1.(jobs := Propagate(g, s1.jobs, j))
      case UNKNOWN => Completion(a, s1, j, UNKNOWN)
      case _ => s1
  }

  lemma UpdatedIs(g: Graph, a: Answers, s: Step, j: Job, failedFile: bool)
    requires j in s.jobs
    ensures var s1 := Renewed(a, s.(jobs := WithPrevStatus(s.jobs, j)), j);
      j in s1.jobs && Updated(g, a, s, j, failedFile) ==
        match s1.jobs[j].status
        case FAILED => if failedFile then s1 else s1.(jobs := Propagate(g, s1.jobs, j))
        case UNKNOWN => Completion(a, s1, j, UNKNOWN)
        case _ => s1
  {
    hide Propagate;
  }

  // ---------------------------------------------------------------- failure propagation

  predicate Failable(s: Status) {
    s == SUBMITTED || s == RUNNING || s == QUEUING || s == UNKNOWN
  }

  ghost predicate Eligible(st: Snapshot, j: Job) {
    j in st && j.level == 0 && Failable(st[j].status)
  }

  /** The eligible jobs at the end of a path of n + 1 child edges through eligible jobs. */
  ghost function Frontier(g: Graph, st: Snapshot, from: Job, n: nat): set<Job> {
    if n == 0 then set k | k in g.Children(from) && Eligible(st, k)
    else set m, k | m in Frontier(g, st, from, n - 1) && k in g.Children(m) && Eligible(st, k) :: k
  }

  ghost predicate Failing(g: Graph, st: Snapshot, from: Job, j: Job) {
    exists n: nat :: j in Frontier(g, st, from, n)
  }

  /** Exactly the jobs reachable through eligible jobs fail; nothing else changes. */
  ghost function Propagate(g: Graph, st: Snapshot, from: Job): Snapshot {
    map j | j in st :: if Failing(g, st, from, j) then st[j].(status := FAILED) else st[j]
  }

  /** What the work list has done so far: the jobs it failed are failing ones, and it lists the
      children of `from` and of every job it failed. */
  ghost predicate Worked(g: Graph, st: Snapshot, from: Job, failed: set<Job>, list: seq<Job>) {
    && (forall j :: j in failed ==> Failing(g, st, from, j))
    && (forall k :: k in g.Children(from) ==> k in list)
    && (forall j :: j in failed ==> forall k :: k in g.Children(j) ==> k in list)
    && (forall k :: k in list ==> k in g.Children(from) || exists j :: j in failed && k in g.Children(j))
  }

  lemma ListedIsFailing(g: Graph, st: Snapshot, from: Job, failed: set<Job>, list: seq<Job>, k: Job)
    requires Worked(g, st, from, failed, list) && k in list && Eligible(st, k)
    ensures Failing(g, st, from, k)
  {
    if k in g.Children(from) {
      assert k in Frontier(g, st, from, 0);
    } else {
      var j :| j in failed && k in g.Children(j);
      var n: nat :| j in Frontier(g, st, from, n);
      assert k in Frontier(g, st, from, n + 1);
    }
  }

  lemma {:induction false} FrontierIsFailed(g: Graph, st: Snapshot, from: Job, failed: set<Job>, list: seq<Job>, n: nat)
    requires Worked(g, st, from, failed, list)
    requires forall k :: k in list && Eligible(st, k) ==> k in failed
    ensures Frontier(g, st, from, n) <= failed
  {
    if n > 0 { FrontierIsFailed(g, st, from, failed, list, n - 1); }
  }

  lemma WorkedOut(g: Graph, st: Snapshot, from: Job, failed: set<Job>, list: seq<Job>)
    requires Worked(g, st, from, failed, list)
    requires forall k :: k in list && Eligible(st, k) ==> k in failed
    ensures Propagate(g, st, from) == FailAll(st, failed)
  {
    forall j | j in st && Failing(g, st, from, j) ensures j in failed {
      var n: nat :| j in Frontier(g, st, from, n);
      FrontierIsFailed(g, st, from, failed, list, n);
    }
  }

  ghost function FailAll(st: Snapshot, failed: set<Job>): Snapshot {
    map j | j in st :: if j in failed then st[j].(status := FAILED) else st[j]
  }

  lemma FailOneMore(st: Snapshot, failed: set<Job>, j: Job)
    requires j in st
    ensures WithStatus(FailAll(st, failed), j, FAILED) == FailAll(st, failed + {j})
  {}

  lemma WorkedFirst(g: Graph, st: Snapshot, from: Job)
    ensures Worked(g, st, from, {}, g.Children(from))
  {}

  lemma WorkedStep(g: Graph, st: Snapshot, from: Job, failed: set<Job>, list: seq<Job>, child: Job)
    requires Worked(g, st, from, failed, list) && child in list && Eligible(st, child)
    ensures Worked(g, st, from, failed + {child}, list + g.Children(child))
  {
    ListedIsFailing(g, st, from, failed, list, child);
    hide Failing;
  }

  // ---------------------------------------------------------------- what an update decides

  /** A path of child edges from a job, through jobs of level 0 that wait for their end. */
  ghost predicate Chain(g: Graph, st: Snapshot, from: Job, older p: seq<Job>) {
    && p != [] && p[0] in g.Children(from) && (forall i :: 0 <= i < |p| - 1 ==> p[i+1] in g.Children(p[i]))
    && (forall i :: 0 <= i < |p| ==> p[i] in st && p[i].level == 0)
    && (forall i :: 0 <= i < |p| ==> st[p[i]].status in {SUBMITTED, RUNNING, QUEUING, UNKNOWN})
  }

  ghost predicate Downstream(g: Graph, st: Snapshot, from: Job, k: Job) {
    exists p :: Chain(g, st, from, p) && p[|p|-1] == k
  }

  lemma {:induction false} FrontierChain(g: Graph, st: Snapshot, from: Job, n: nat, k: Job) returns (p: seq<Job>)
    requires k in Frontier(g, st, from, n)
    ensures Chain(g, st, from, p) && p[|p|-1] == k
  {
    if n == 0 {
      p := [k];
    } else {
      var m :| m in Frontier(g, st, from, n - 1) && k in g.Children(m);
      var q := FrontierChain(g, st, from, n - 1, m);
      p := q + [k];
      ChainOneMore(g, st, from, q, k);
    }
  }

  lemma ChainOneMore(g: Graph, st: Snapshot, from: Job, q: seq<Job>, k: Job)
    requires Chain(g, st, from, q) && Eligible(st, k) && k in g.Children(q[|q|-1])
    ensures Chain(g, st, from, q + [k])
  {
    var p := q + [k];
    assert forall i :: 0 <= i < |q| ==> p[i] == q[i];
    assert p[|q|-1+1] in g.Children(p[|q|-1]);
  }

  lemma {:induction false} ChainFrontier(g: Graph, st: Snapshot, from: Job, p: seq<Job>)
    requires Chain(g, st, from, p)
    ensures p[|p|-1] in Frontier(g, st, from, |p| - 1)
  {
    var k := p[|p|-1];
    assert Eligible(st, k);
    if |p| > 1 {
      var q := p[..|p|-1];
      ChainFrontier(g, st, from, q);
      var m := q[|q|-1];
      assert p[|p|-2] == m && p[|p|-2+1] in g.Children(p[|p|-2]);
      assert m in Frontier(g, st, from, |p| - 2) && k in g.Children(m);
    }
  }

  /** Exactly the jobs at the end of such a path fail. */
  lemma FailuresReach(g: Graph, st: Snapshot, from: Job)
    ensures Propagate(g, st, from).Keys == st.Keys
    ensures forall k :: k in st ==>
      Propagate(g, st, from)[k] == if Downstream(g, st, from, k) then st[k].(status := FAILED) else st[k]
  {
    forall k | k in st ensures Failing(g, st, from, k) <==> Downstream(g, st, from, k) {
      if Failing(g, st, from, k) {
        var n: nat :| k in Frontier(g, st, from, n);
        var p := FrontierChain(g, st, from, n, k);
      }
      if Downstream(g, st, from, k) {
        var p :| Chain(g, st, from, p) && p[|p|-1] == k;
        ChainFrontier(g, st, from, p);
      }
    }
  }

  /** The part of a path after its last stop at `j`, which has failed, is a path from `j`. */
  lemma {:induction false} ChainWithout(g: Graph, st: Snapshot, j: Job, p: seq<Job>, k: Job)
    requires j in st && k != j && Chain(g, st, j, p) && p[|p|-1] == k
    ensures Downstream(g, st[j := st[j].(status := FAILED)], j, k)
    decreases |p|
  {
    if i :| 0 <= i < |p| && p[i] == j {
      var q := p[i+1..];
      assert q[0] == p[i+1];
      forall n | 0 <= n < |q| - 1 ensures q[n+1] in g.Children(q[n]) { assert p[i+1+n+1] in g.Children(p[i+1+n]); }
      ChainWithout(g, st, j, q, k);
    } else {
      assert Chain(g, st[j := st[j].(status := FAILED)], j, p);
    }
  }

  /** Failing the job first makes no difference to which others are downstream. */
  lemma DownstreamOfFailed(g: Graph, st: Snapshot, j: Job, state: JobState, k: Job)
    requires j in st && k != j && state.status == FAILED
    ensures Downstream(g, st[j := state], j, k) <==> Downstream(g, st, j, k)
  {
    var failed := st[j := st[j].(status := FAILED)];
    if p :| Chain(g, st[j := state], j, p) && p[|p|-1] == k {
      forall i | 0 <= i < |p| ensures p[i] != j { assert p[i] in st[j := state]; }
      assert Chain(g, st, j, p);
    }
    if p :| Chain(g, st, j, p) && p[|p|-1] == k {
      ChainWithout(g, st, j, p, k);
      var q :| Chain(g, failed, j, q) && q[|q|-1] == k;
      forall i | 0 <= i < |q| ensures q[i] != j { assert q[i] in failed; }
      assert Chain(g, st[j := state], j, q);
    }
  }

  /** What is downstream of a job does not depend on its own state. */
  lemma DownstreamWhatever(g: Graph, st: Snapshot, j: Job, state: JobState, k: Job)
    requires j in st && k != j
    ensures Downstream(g, st[j := state], j, k) <==> Downstream(g, st, j, k)
  {
    var failed := state.(status := FAILED);
    assert st[j := state][j := failed] == st[j := failed];
    DownstreamOfFailed(g, st, j, failed, k);
    DownstreamOfFailed(g, st[j := state], j, failed, k);
  }

  /** The status that an update ends with: COMPLETED and UNKNOWN are only believed after a look for the
      COMPLETED file. */
  function Decided(news: Status, yes: bool): Status {
    if news == COMPLETED then (if yes then COMPLETED else FAILED)
    else if news == UNKNOWN then (if yes then COMPLETED else UNKNOWN)
    else news
  }

  /** `update_status`, in statuses and answers: the new status, one question if it is COMPLETED or
      UNKNOWN, the former status, and the failure of what is downstream of a job that failed without a
      failure file. */
  lemma UpdateDecides(g: Graph, a: Answers, s: Step, j: Job, failedFile: bool)
    requires j in s.jobs
    ensures var s', news := Updated(g, a, s, j, failedFile), s.jobs[j].newStatus;
      var status := Decided(news, a.yes(s.now));
      && s'.now == (if news == COMPLETED || news == UNKNOWN then s.now + 1 else s.now)
      && s'.jobs.Keys == s.jobs.Keys
      && s'.jobs[j] == s.jobs[j].(status := status, prevStatus := s.jobs[j].status)
      && forall k :: k in s.jobs && k != j ==>
        s'.jobs[k] == if status == FAILED && !failedFile && Downstream(g, s.jobs, j, k)
                      then s.jobs[k].(status := FAILED) else s.jobs[k]
  {
    hide Propagate, Downstream;
    var s1 := Renewed(a, s.(jobs := WithPrevStatus(s.jobs, j)), j);
    var state := s1.jobs[j];
    assert s1.jobs == s.jobs[j := state];
    if state.status == FAILED {
      FailuresReach(g, s1.jobs, j);
      forall k | k in s.jobs && k != j ensures Downstream(g, s1.jobs, j, k) <==> Downstream(g, s.jobs, j, k) {
        DownstreamOfFailed(g, s.jobs, j, state, k);
      }
      NotItsOwn(g, s1.jobs, j);
    }
  }

  lemma NotItsOwn(g: Graph, st: Snapshot, j: Job)
    requires j in st && st[j].status == FAILED
    ensures !Downstream(g, st, j, j)
  {}

  class Job {
    const name: string
    const level: int
    const vertical: bool
    const retrials: int
    var status: Status
    var newStatus: Status
    var prevStatus: Status
    var failCount: int
    var hold: string

    constructor (name: string, level: int, vertical: bool, retrials: int, state: JobState)
      ensures this.name == name && this.level == level && this.vertical == vertical && this.retrials == retrials
      ensures JobState(status, newStatus, prevStatus, failCount, hold) == state
    {
      this.name, this.level, this.vertical, this.retrials := name, level, vertical, retrials;
      status, newStatus, prevStatus := state.status, state.newStatus, state.prevStatus;
      failCount, hold := state.failCount, state.hold;
    }

    /** The setter of `status`. */
    method SetStatus(g: Graph, s: Status)
      requires this in g.Jobs()
      modifies this`status
      ensures Snap(g.Jobs()) == WithStatus(old(Snap(g.Jobs())), this, s)
    {
      status := s;
    }

    /** `update_children_status`: a work list that grows while it is walked. It ends even when
        the children form a cycle. */
    method UpdateChildrenStatus(g: Graph)
      requires g.Closed() && this in g.Jobs()
      modifies g.Jobs()`status
      ensures Snap(g.Jobs()) == Propagate(g, old(Snap(g.Jobs())), this)
    {
      hide Worked, Propagate, WithStatus;
      ghost var st := Snap(g.Jobs());
      ghost var failed: set<Job> := {};
      var children := g.children[this];
      WorkedFirst(g, st, this);
      var i := 0;
      while i < |children|
        invariant 0 <= i <= |children| && failed <= g.Jobs() && (forall k :: k in children ==> k in g.Jobs())
        invariant Snap(g.Jobs()) == FailAll(st, failed)
        invariant Worked(g, st, this, failed, children)
        invariant forall n :: 0 <= n < i && Eligible(st, children[n]) ==> children[n] in failed
        decreases g.Jobs() - failed, |children| - i
      {
        var child := children[i];
        assert Snap(g.Jobs())[child].status == child.status;
        if child.level == 0 && Failable(child.status) {
          WorkedStep(g, st, this, failed, children, child);
          child.SetStatus(g, FAILED);
          FailOneMore(st, failed, child);
          failed := failed + {child};
          children := children + g.children[child];
        }
        i := i + 1;
      }
      WorkedOut(g, st, this, failed, children);
    }

    /** `check_completion`. Over the wallclock the status is returned and not set. */
    method CheckCompletion(g: Graph, p: Platform, default: Status, overWallclock: bool) returns (answer: Option<Status>)
      requires this in g.Jobs()
      modifies this`status, p
      ensures var before := Step(old(Snap(g.Jobs())), old(p.now));
        Step(Snap(g.Jobs()), p.now) ==
          if overWallclock then before.(now := before.now + 1) else Completion(p.answers, before, this, default)
      ensures answer ==
        if !overWallclock then None else Some(if p.answers.yes(old(p.now)) then COMPLETED else default)
    {
      var found := p.Ask();
      if overWallclock { return Some(if found then COMPLETED else default); }
      SetStatus(g, if found then COMPLETED else default);
      answer := None;
    }

    method SetNewStatus(g: Graph, s: Status)
      requires this in g.Jobs()
      modifies this`newStatus
      ensures Snap(g.Jobs()) == WithNewStatus(old(Snap(g.Jobs())), this, s)
    {
      newStatus := s;
    }

    method SetHold(g: Graph, hold: string)
      requires this in g.Jobs()
      modifies this`hold
      ensures Snap(g.Jobs()) == WithHold(old(Snap(g.Jobs())), this, hold)
    {
      this.hold := hold;
    }

    /** No retrial is left. */
    method SpendRetrials(g: Graph)
      requires this in g.Jobs()
      modifies this`failCount
      ensures Snap(g.Jobs()) == WithFailCount(old(Snap(g.Jobs())), this)
    {
      failCount := retrials;
    }

    method SavePrevStatus(g: Graph)
      requires this in g.Jobs()
      modifies this`prevStatus
      ensures Snap(g.Jobs()) == WithPrevStatus(old(Snap(g.Jobs())), this)
    {
      prevStatus := status;
    }

    method TakeNewStatus(g: Graph, p: Platform)
      requires this in g.Jobs()
      modifies this`status, p
      ensures Step(Snap(g.Jobs()), p.now) == Renewed(p.answers, Step(old(Snap(g.Jobs())), old(p.now)), this)
    {
      hide Completion, WithStatus;
      assert Snap(g.Jobs())[this].newStatus == newStatus;
      if newStatus == COMPLETED {
        var _ := CheckCompletion(g, p, FAILED, false);
      } else {
        SetStatus(g, newStatus);
      }
    }

    /** `update_status`. */
    method UpdateStatus(g: Graph, p: Platform, failedFile: bool)
      requires g.Closed() && this in g.Jobs()
      modifies this`prevStatus, g.Jobs()`status, p
      ensures Step(Snap(g.Jobs()), p.now)
        == Updated(g, p.answers, Step(old(Snap(g.Jobs())), old(p.now)), this, failedFile)
    {
      ghost var s := Step(Snap(g.Jobs()), p.now);
      UpdatedIs(g, p.answers, s, this, failedFile);
      hide Updated, Completion, WithStatus, WithPrevStatus, Propagate, Renewed;
      SavePrevStatus(g);
      TakeNewStatus(g, p);
      assert Snap(g.Jobs())[this].status == status;
      if status == FAILED {
        if !failedFile { UpdateChildrenStatus(g); }
      } else if status == UNKNOWN {
        var _ := CheckCompletion(g, p, UNKNOWN, false);
      }
    }
  }
}

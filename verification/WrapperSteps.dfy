/** The steps of a wrapper as functions of its state, of the state of its jobs, and of the
    answers of the platform. The class in Wrappers.dfy is proved against them; what they keep
    is proved in WrapperSafety.dfy. */
module WrapperSteps {
  import opened Jobs

  /** What stays fixed while a wrapper runs. */
  datatype Setup = Setup(g: Graph, a: Answers, slurm: bool, jobList: seq<Job>)

  datatype State = State(status: Status, prevStatus: Status, newStatus: Status, failed: bool, hold: string,
                         running: map<Job, int>, inner: seq<Job>, step: Step)
  {
    ghost function StatusOf(j: Job): Status { if j in step.jobs then step.jobs[j].status else WAITING }

    ghost function SetJob(j: Job, s: Status): State { this.(step := step.(jobs := WithStatus(step.jobs, j, s))) }

    ghost function SetHold(j: Job, hold: string): State { this.(step := step.(jobs := WithHold(step.jobs, j, hold))) }

    ghost function SetNew(j: Job, s: Status): State { this.(step := step.(jobs := WithNewStatus(step.jobs, j, s))) }

    /** The platform has answered one more question. */
    ghost function Tick(): State { this.(step := step.(now := step.now + 1)) }
  }

  ghost function Yes(c: Setup, w: State): bool { c.a.yes(w.step.now) }

  ghost function UpdateJob(c: Setup, w: State, j: Job, failedFile: bool): State {
    w.(step := Updated(c.g, c.a, w.step, j, failedFile))
  }

  // ---------------------------------------------------------------- finished jobs

  /** `_check_finished_job`: without a failure file, the COMPLETED file is looked for twice. */
  ghost function CheckFinished(c: Setup, w: State, j: Job, failedFile: bool): State {
    var w0 := w.SetNew(j, FAILED);
    var w1 :=
      if failedFile then UpdateJob(c, w0, j, true)
      else if Yes(c, w0) then UpdateJob(c, w0.Tick().SetNew(j, COMPLETED), j, false)
      else if Yes(c, w0.Tick()) then UpdateJob(c, w0.Tick().Tick().SetNew(j, COMPLETED), j, false)
      else UpdateJob(c, w0.Tick().Tick(), j, true);
    w1.(running := w1.running - {j})
  }

  // ---------------------------------------------------------------- polling

  predicate Finished(s: Status) { s == COMPLETED || s == FAILED }

  /** A job is polled when it has not finished and its parents have completed, or the whole
      wrapper has. */
  ghost predicate Pollable(c: Setup, w: State, j: Job) {
    && !Finished(w.StatusOf(j))
    && (w.status == COMPLETED || forall p :: p in c.g.Parents(j) ==> w.StatusOf(p) == COMPLETED)
  }

  ghost function Pollables(c: Setup, w: State, jobs: seq<Job>): seq<Job> {
    if jobs == [] then []
    else
      var last := |jobs| - 1;
      Pollables(c, w, jobs[..last]) + if Pollable(c, w, jobs[last]) then [jobs[last]] else []
  }

  /** The dictionary from names to jobs; the last job of a name wins. */
  function Named(jobs: seq<Job>): map<string, Job> {
    if jobs == [] then map[] else Named(jobs[..|jobs|-1])[jobs[|jobs|-1].name := jobs[|jobs|-1]]
  }

  /** A job with a start time that was not followed yet is running. */
  ghost function StartJob(c: Setup, w: State, j: Job, line: PollLine): State {
    if line.fields > 1 && j !in w.running
    then UpdateJob(c, w.(running := w.running[j := line.start]).SetNew(j, RUNNING), j, false)
    else w
  }

  /** A line of two fields is a running job, which may be late; one of three, a finished job. */
  ghost function EndLine(c: Setup, w: State, j: Job, over: bool, fields: nat): (State, bool) {
    if fields == 2 then
      (if Yes(c, w) && !j.vertical then w.Tick().SetJob(j, FAILED) else w.Tick(), Yes(c, w))
    else if fields == 3 then (CheckFinished(c, w, j, false), over)
    else (w, over)
  }

  /** A line of the poll. The flag is set by the last job found running. */
  ghost function ReadLine(c: Setup, names: map<string, Job>, w: State, over: bool, line: PollLine): (State, bool) {
    if line.fields == 0 || line.name !in names then (w, over)
    else EndLine(c, StartJob(c, w, names[line.name], line), names[line.name], over, line.fields)
  }

  ghost function ReadLines(c: Setup, names: map<string, Job>, w: State, lines: seq<PollLine>): (State, bool) {
    if lines == [] then (w, false)
    else
      var (before, over) := ReadLines(c, names, w, lines[..|lines|-1]);
      ReadLine(c, names, before, over, lines[|lines|-1])
  }

  /** `_check_running_jobs`. */
  ghost function CheckRunning(c: Setup, w: State): State {
    var polled := Pollables(c, w, c.jobList);
    var w0 := w.(inner := polled);
    if polled == [] then w0
    else
      var (w1, over) := ReadLines(c, Named(polled), w0.Tick(), c.a.poll(w0.step.now));
      if over then w1.(status := FAILED) else w1
  }

  // ---------------------------------------------------------------- completed wrappers

  ghost function NotCompleted(w: State, jobs: seq<Job>): seq<Job> {
    if jobs == [] then []
    else
      var last := |jobs| - 1;
      NotCompleted(w, jobs[..last]) + if w.StatusOf(jobs[last]) != COMPLETED then [jobs[last]] else []
  }

  ghost function CompleteNamed(c: Setup, names: set<string>, w: State, jobs: seq<Job>): State {
    if jobs == [] then w
    else
      var before := CompleteNamed(c, names, w, jobs[..|jobs|-1]);
      var j := jobs[|jobs|-1];
      if j.name in names then UpdateJob(c, before.SetNew(j, COMPLETED), j, false) else before
  }

  function Found(names: set<string>, jobs: seq<Job>): seq<Job> {
    if jobs == [] then []
    else
      var last := |jobs| - 1;
      Found(names, jobs[..last]) + if jobs[last].name in names then [jobs[last]] else []
  }

  function Elements(jobs: seq<Job>): set<Job> { set j | j in jobs }

  function Missing(names: set<string>, jobs: seq<Job>): seq<Job> {
    if jobs == [] then []
    else
      var last := |jobs| - 1;
      Missing(names, jobs[..last]) + if jobs[last].name in names then [] else [jobs[last]]
  }

  ghost function FinishEach(c: Setup, w: State, jobs: seq<Job>): State {
    if jobs == [] then w else CheckFinished(c, FinishEach(c, w, jobs[..|jobs|-1]), jobs[|jobs|-1], false)
  }

  /** `check_inner_jobs_completed`: the jobs with a COMPLETED file are completed and no longer
      followed, then the others are finished one by one. */
  ghost function CheckCompleted(c: Setup, w: State): State {
    var jobs := NotCompleted(w, c.jobList);
    if jobs == [] then w
    else
      var names := c.a.completed(w.step.now);
      var w1 := CompleteNamed(c, names, w.Tick(), jobs);
      FinishEach(c, w1.(running := w1.running - Elements(Found(names, jobs))), Missing(names, jobs))
  }

  // ---------------------------------------------------------------- failing wrappers

  predicate Submitted(s: Status) { s == READY || s == SUBMITTED || s == QUEUING }

  ghost function SubmittedJobs(w: State, jobs: seq<Job>): seq<Job> {
    if jobs == [] then []
    else
      var last := |jobs| - 1;
      SubmittedJobs(w, jobs[..last]) + if Submitted(w.StatusOf(jobs[last])) then [jobs[last]] else []
  }

  /** A job whose failure file exists, and can be fetched, has failed. */
  ghost function FailOne(c: Setup, w: State, j: Job): State {
    if !Yes(c, w) then w.Tick()
    else if Yes(c, w.Tick()) then CheckFinished(c, w.Tick().Tick(), j, true)
    else w.Tick().Tick()
  }

  ghost function FailEach(c: Setup, w: State, jobs: seq<Job>): State {
    if jobs == [] then w
    else FailOne(c, FailEach(c, w, jobs[..|jobs|-1]), jobs[|jobs|-1])
  }

  /** The jobs that `update_failed_jobs` goes through. */
  ghost function Suspects(c: Setup, w: State, checkReady: bool): seq<Job> {
    w.inner + if checkReady then SubmittedJobs(w, c.jobList) else []
  }

  /** `update_failed_jobs`. No job stays in the list of running ones: the copies it is compared
      with are other objects. */
  ghost function UpdateFailed(c: Setup, w: State, checkReady: bool): State {
    FailEach(c, w.(inner := []), Suspects(c, w, checkReady))
  }

  ghost function SetAll(w: State, jobs: seq<Job>, s: Status): State {
    if jobs == [] then w else SetAll(w, jobs[..|jobs|-1], s).SetJob(jobs[|jobs|-1], s)
  }

  ghost function CancelOne(w: State, j: Job): State {
    if !Finished(w.StatusOf(j)) then w.SetJob(j, WAITING)
    else if j.vertical then w.(step := w.step.(jobs := WithFailCount(w.step.jobs, j)))
    else w
  }

  ghost function CancelEach(w: State, jobs: seq<Job>): State {
    if jobs == [] then w else CancelOne(CancelEach(w, jobs[..|jobs|-1]), jobs[|jobs|-1])
  }

  /** `cancel_failed_wrapper_job`. */
  ghost function Cancel(c: Setup, w: State): State {
    var w0 := CheckRunning(c, w);
    CancelEach(SetAll(w0, w0.inner, FAILED), c.jobList)
  }

  // ---------------------------------------------------------------- waiting wrappers

  ghost function Release(c: Setup, w: State, jobs: seq<Job>): State {
    if jobs == [] then w
    else
      var j := jobs[|jobs|-1];
      UpdateJob(c, Release(c, w, jobs[..|jobs|-1]).SetHold(j, w.hold).SetNew(j, QUEUING), j, false)
  }

  ghost function FollowWrapper(w: State, jobs: seq<Job>): State {
    if jobs == [] then w
    else
      var j := jobs[|jobs|-1];
      FollowWrapper(w, jobs[..|jobs|-1]).SetHold(j, w.hold).SetJob(j, w.status)
  }

  /** What the wrapper does about the reason why it waits. */
  ghost function HeldFor(c: Setup, w: State, reason: Reason): State {
    match reason
    case HeldByUser => if w.hold == "false" then Release(c, w.(newStatus := QUEUING), c.jobList) else w.(status := HELD)
    case HeldByAdmin => w.(status := WAITING)
    case _ => w
  }

  ghost function HeldWrapper(c: Setup, w: State): State {
    if c.slurm then HeldFor(c, w.Tick(), c.a.reason(w.step.now)) else w
  }

  /** `_check_inner_jobs_queue`. */
  ghost function CheckQueue(c: Setup, w: State, prev: Status): State {
    if c.slurm && c.a.reason(w.step.now) == Cancelling then
      Cancel(c, UpdateFailed(c, CheckRunning(c, w.Tick()), true))
    else
      var w1 := HeldWrapper(c, w);
      if prev != w1.status then FollowWrapper(w1, c.jobList) else w1
  }

  // ---------------------------------------------------------------- check_status

  /** Looks for the failure file of a running job, up to the first one found. */
  ghost function AnyFailure(c: Setup, w: State, jobs: seq<Job>): State
    decreases |jobs|
  {
    if jobs == [] then w
    else if Yes(c, w) then w.Tick().(failed := true)
    else AnyFailure(c, w.Tick(), jobs[1..])
  }

  /** What a wrapper that is or has become FAILED or UNKNOWN does first. */
  ghost function UpdateFailedWrapper(c: Setup, w: State): State {
    if w.prevStatus == SUBMITTED || w.prevStatus == QUEUING then UpdateFailed(c, w, true)
    else if w.prevStatus == FAILED || w.prevStatus == UNKNOWN then CheckRunning(c, w.(failed := true))
    else w
  }

  /** Whether a wrapper with followed jobs has really failed: its own failure file exists, and
      that of a followed job. */
  ghost function ConfirmFailure(c: Setup, w: State): State {
    if w.failed then w else if Yes(c, w) then AnyFailure(c, w.Tick(), w.inner) else w.Tick()
  }

  ghost function CancelUnlessRunning(c: Setup, w: State): State {
    if w.inner == [] then Cancel(c, w) else w
  }

  ghost function Confirmed(c: Setup, w: State): State {
    if w.failed then CancelUnlessRunning(c, UpdateFailed(c, w, false)) else w
  }

  /** The last part of `check_status`. */
  ghost function CheckFailed(c: Setup, w: State): State {
    var w1 := UpdateFailedWrapper(c, w.(status := FAILED));
    if w1.inner == [] then Cancel(c, w1) else Confirmed(c, ConfirmFailure(c, w1))
  }

  /** `check_status`, up to the branch for failed wrappers. */
  ghost function CheckAlive(c: Setup, w: State, status: Status): State {
    var w0 := w.(prevStatus := w.status, status := status);
    match status
    case HELD => CheckQueue(c, w0, w.status)
    case QUEUING => CheckQueue(c, w0, w.status)
    case RUNNING => CheckRunning(c, if w.status == SUBMITTED then SetAll(w0, c.jobList, QUEUING) else w0)
    case COMPLETED => CheckCompleted(c, CheckRunning(c, w0))
    case _ => w0
  }

  ghost function CheckStatus(c: Setup, w: State, status: Status): State {
    var w1 := CheckAlive(c, w, status);
    if w1.status == FAILED || w1.status == UNKNOWN then CheckFailed(c, w1) else w1
  }

  /** Any number of checks, with the statuses the platform gives for the wrapper. */
  ghost function Run(c: Setup, w: State, statuses: seq<Status>): State {
    if statuses == [] then w
    else CheckStatus(c, Run(c, w, statuses[..|statuses|-1]), statuses[|statuses|-1])
  }
}

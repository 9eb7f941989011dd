/** What the checks of failing and waiting wrappers decide, and the whole check, in statuses of jobs and
    answers of the platform. */
module WrapperOutcomes {
  import opened Sequences
  import opened Jobs
  import opened WrapperSteps
  import opened WrapperSafety
  import opened WrapperDecisions

  // ---------------------------------------------------------------- failing wrappers

  /** The next question after looking for the failure files of `n` jobs: one each, and one more for a
      file that is there, whether it can be fetched. */
  ghost function FilesAfter(a: Answers, n: nat, start: nat): nat {
    if n == 0 then start
    else
      var t := FilesAfter(a, n - 1, start);
      if a.yes(t) then t + 2 else t + 1
  }

  /** The failure file of a job is found and fetched, at one of the places where it is listed. */
  ghost predicate FileFound(a: Answers, jobs: seq<Job>, start: nat, j: Job) {
    exists i :: 0 <= i < |jobs| && jobs[i] == j && a.yes(FilesAfter(a, i, start)) && a.yes(FilesAfter(a, i, start) + 1)
  }

  /** Exactly those jobs have failed, and are no longer followed. */
  ghost predicate FilesFail(c: Setup, w: State, w': State, jobs: seq<Job>) {
    && w' == w.(step := w'.step, running := w'.running) && w'.step.jobs.Keys == w.step.jobs.Keys
    && w'.step.now == FilesAfter(c.a, |jobs|, w.step.now)
    && forall k :: k in w.step.jobs ==> FileFails(c, w, w', jobs, k)
  }

  ghost predicate FileFails(c: Setup, w: State, w': State, jobs: seq<Job>, k: Job)
    requires k in w.step.jobs && k in w'.step.jobs
  {
    if FileFound(c.a, jobs, w.step.now, k) then w'.StatusOf(k) == FAILED && k !in w'.running
    else
      && w'.step.jobs[k] == w.step.jobs[k] && (k in w'.running <==> k in w.running)
      && (k in w.running ==> w'.running[k] == w.running[k])
  }

  /** The file is found at the last place where a job is listed. */
  ghost predicate FoundLast(a: Answers, jobs: seq<Job>, start: nat, j: Job)
    requires jobs != []
  {
    var t := FilesAfter(a, |jobs| - 1, start); jobs[|jobs|-1] == j && a.yes(t) && a.yes(t + 1)
  }

  lemma FileFoundLast(a: Answers, jobs: seq<Job>, start: nat, j: Job)
    requires jobs != []
    ensures FileFound(a, jobs, start, j) == (FileFound(a, jobs[..|jobs|-1], start, j) || FoundLast(a, jobs, start, j))
  {
    var n := |jobs| - 1;
    hide FilesAfter;
    if i :| 0 <= i < n && jobs[..n][i] == j && a.yes(FilesAfter(a, i, start)) && a.yes(FilesAfter(a, i, start) + 1) {
      assert jobs[i] == j;
    }
    if i :| 0 <= i < |jobs| && jobs[i] == j && a.yes(FilesAfter(a, i, start)) && a.yes(FilesAfter(a, i, start) + 1) {
      assert i < n ==> jobs[..n][i] == j;
    }
  }

  lemma FailOneDecides(c: Setup, w: State, j: Job)
    requires j in w.step.jobs
    ensures var w', t := FailOne(c, w, j), w.step.now;
      && w' == w.(step := w'.step, running := w'.running) && w'.step.jobs.Keys == w.step.jobs.Keys
      && w'.step.now == (if c.a.yes(t) then t + 2 else t + 1)
      && (forall k :: k in w.step.jobs && k != j ==> w'.step.jobs[k] == w.step.jobs[k])
      && (if c.a.yes(t) && c.a.yes(t + 1) then w'.StatusOf(j) == FAILED && w'.running == w.running - {j}
          else w'.step.jobs[j] == w.step.jobs[j] && w'.running == w.running)
  {
    FinishMeans(c, w.Tick().Tick(), j, true);
    hide CheckFinished, Downstream;
  }

  lemma {:induction false} FailEachDecides(c: Setup, w: State, jobs: seq<Job>)
    requires forall j :: j in jobs ==> j in w.step.jobs
    ensures FilesFail(c, w, FailEach(c, w, jobs), jobs)
  {
    if jobs != [] {
      FailEachDecides(c, w, jobs[..|jobs|-1]);
      FailLast(c, w, jobs);
    }
  }

  lemma FailLast(c: Setup, w: State, jobs: seq<Job>)
    requires jobs != [] && FilesFail(c, w, FailEach(c, w, jobs[..|jobs|-1]), jobs[..|jobs|-1])
    requires jobs[|jobs|-1] in w.step.jobs
    ensures FilesFail(c, w, FailEach(c, w, jobs), jobs)
  {
    var n := |jobs| - 1;
    var before, w' := FailEach(c, w, jobs[..n]), FailEach(c, w, jobs);
    FailOneDecides(c, before, jobs[n]);
    hide FailOne, FileFound, FailEach;
    forall k | k in w.step.jobs ensures FileFails(c, w, w', jobs, k) {
      FileFoundLast(c.a, jobs, w.step.now, k);
      assert FileFails(c, w, before, jobs[..n], k);
    }
  }

  /** The jobs whose failure files are looked for: those that are followed, and if asked for those that
      wait to run. */
  ghost function Waiting(w: State, jobs: seq<Job>): (r: seq<bool>)
    ensures |r| == |jobs|
  {
    seq(|jobs|, i requires 0 <= i < |jobs| =>
      w.StatusOf(jobs[i]) == READY || w.StatusOf(jobs[i]) == SUBMITTED || w.StatusOf(jobs[i]) == QUEUING)
  }

  lemma {:induction false} SubmittedKept(w: State, jobs: seq<Job>)
    ensures SubmittedJobs(w, jobs) == Picked(jobs, Waiting(w, jobs))
  {
    if jobs != [] {
      var n := |jobs| - 1;
      SubmittedKept(w, jobs[..n]);
      PickedLast(jobs, Waiting(w, jobs));
      assert Waiting(w, jobs)[..n] == Waiting(w, jobs[..n]);
    }
  }

  ghost function Looked(c: Setup, w: State, checkReady: bool): seq<Job> {
    w.inner + if checkReady then Picked(c.jobList, Waiting(w, c.jobList)) else []
  }

  /** Updating the failed jobs: those whose failure files are found fail, nothing spreads, and the
      wrapper follows no job any more. */
  lemma FailuresDecide(c: Setup, w: State, checkReady: bool)
    requires Holds(c, w) && forall j :: j in w.inner ==> j in w.step.jobs
    ensures var w' := UpdateFailed(c, w, checkReady);
      w'.inner == [] && FilesFail(c, w.(inner := []), w', Looked(c, w, checkReady))
  {
    SubmittedKept(w, c.jobList);
    PickedIn(c.jobList, Waiting(w, c.jobList));
    hide FailEach, FilesFail, Picked, SubmittedJobs, Waiting;
    FailEachDecides(c, w.(inner := []), Looked(c, w, checkReady));
  }

  /** A cancellation, after its poll: the followed jobs fail, the others that have not finished wait
      again, and vertical jobs that have finished get no further trial. */
  lemma CancelDecides(c: Setup, w: State, j: Job)
    requires Holds(c, w) && j in c.jobList
    ensures var (v, w') := (CheckRunning(c, w), Cancel(c, w));
      && w' == v.(step := w'.step) && w'.step.now == v.step.now && w'.step.jobs.Keys == v.step.jobs.Keys
      && j in v.step.jobs
      && var final := if j in v.inner then FAILED else v.StatusOf(j);
         w'.step.jobs[j] == v.step.jobs[j].(
           status := if final == COMPLETED || final == FAILED then final else WAITING,
           failCount := if (final == COMPLETED || final == FAILED) && j.vertical then j.retrials
                        else v.step.jobs[j].failCount)
  {
    var v := CheckRunning(c, w);
    CheckRunningPolls(c, w);
    SetAllMeans(v, v.inner, FAILED);
    CancelEachMeans(SetAll(v, v.inner, FAILED), c.jobList);
    hide CheckRunning, Pollables, SetAll, CancelEach, Picked;
  }

  lemma {:induction false} SetAllMeans(w: State, jobs: seq<Job>, s: Status)
    ensures var w' := SetAll(w, jobs, s);
      && w' == w.(step := w'.step) && w'.step.now == w.step.now && w'.step.jobs.Keys == w.step.jobs.Keys
      && forall j :: j in w.step.jobs ==>
        w'.step.jobs[j] == if j in jobs then w.step.jobs[j].(status := s) else w.step.jobs[j]
  {
    if jobs != [] {
      SetAllMeans(w, jobs[..|jobs|-1], s);
      assert jobs == jobs[..|jobs|-1] + [jobs[|jobs|-1]];
    }
  }

  lemma {:induction false} CancelEachMeans(w: State, jobs: seq<Job>)
    ensures var w' := CancelEach(w, jobs);
      && w' == w.(step := w'.step) && w'.step.now == w.step.now && w'.step.jobs.Keys == w.step.jobs.Keys
      && forall j :: j in w.step.jobs ==>
        w'.step.jobs[j] == if j in jobs then Cancelled(w.step.jobs[j], j) else w.step.jobs[j]
  {
    if jobs != [] {
      CancelEachMeans(w, jobs[..|jobs|-1]);
      assert jobs == jobs[..|jobs|-1] + [jobs[|jobs|-1]];
      CancelOneMeans(CancelEach(w, jobs[..|jobs|-1]), jobs[|jobs|-1]);
      hide CancelOne;
    }
  }

  ghost function Cancelled(s: JobState, j: Job): JobState {
    if s.status != COMPLETED && s.status != FAILED then s.(status := WAITING)
    else if j.vertical then s.(failCount := j.retrials)
    else s
  }

  lemma CancelOneMeans(w: State, j: Job)
    ensures var w' := CancelOne(w, j);
      && w' == w.(step := w'.step) && w'.step.now == w.step.now && w'.step.jobs.Keys == w.step.jobs.Keys
      && forall k :: k in w.step.jobs ==>
        w'.step.jobs[k] == if k == j then Cancelled(w.step.jobs[k], j) else w.step.jobs[k]
  {}

  // ---------------------------------------------------------------- waiting wrappers

  /** The job has been released. */
  ghost predicate Released(w: State, j: Job, hold: string) {
    && j in w.step.jobs && w.StatusOf(j) == QUEUING && w.step.jobs[j].newStatus == QUEUING
    && w.step.jobs[j].hold == hold
  }

  lemma {:induction false} ReleaseMeans(c: Setup, w: State, jobs: seq<Job>)
    requires forall j :: j in jobs ==> j in w.step.jobs
    ensures var w' := Release(c, w, jobs);
      && w' == w.(step := w'.step) && w'.step.now == w.step.now && w'.step.jobs.Keys == w.step.jobs.Keys
      && forall j :: j in w.step.jobs ==>
        if j in jobs then Released(w', j, w.hold) else w'.step.jobs[j] == w.step.jobs[j]
  {
    hide UpdateJob, WithHold, WithNewStatus, Released;
    if jobs != [] {
      ReleaseMeans(c, w, jobs[..|jobs|-1]);
      assert jobs == jobs[..|jobs|-1] + [jobs[|jobs|-1]];
      ReleaseOneMeans(c, Release(c, w, jobs[..|jobs|-1]), jobs[|jobs|-1]);
      ReleasedStays(Release(c, w, jobs[..|jobs|-1]), Release(c, w, jobs), jobs[|jobs|-1], w.hold);
    }
  }

  lemma ReleasedStays(w: State, w': State, j: Job, hold: string)
    requires w'.step.jobs.Keys == w.step.jobs.Keys
    requires forall k :: k in w.step.jobs && k != j ==> w'.step.jobs[k] == w.step.jobs[k]
    ensures forall k :: k != j && Released(w, k, hold) ==> Released(w', k, hold)
  {}

  lemma ReleaseOneMeans(c: Setup, w: State, j: Job)
    requires j in w.step.jobs
    ensures var w' := UpdateJob(c, w.SetHold(j, w.hold).SetNew(j, QUEUING), j, false);
      && w' == w.(step := w'.step) && w'.step.now == w.step.now && w'.step.jobs.Keys == w.step.jobs.Keys
      && Released(w', j, w.hold) && forall k :: k in w.step.jobs && k != j ==> w'.step.jobs[k] == w.step.jobs[k]
  {
    UpdateToBecomes(c, w.SetHold(j, w.hold), j, QUEUING, false);
    hide UpdateJob, Downstream, WithNewStatus;
  }

  lemma {:induction false} FollowMeans(w: State, jobs: seq<Job>)
    ensures var w' := FollowWrapper(w, jobs);
      && w' == w.(step := w'.step) && w'.step.now == w.step.now && w'.step.jobs.Keys == w.step.jobs.Keys
      && forall j :: j in w.step.jobs ==>
        w'.step.jobs[j] == if j in jobs then w.step.jobs[j].(status := w.status, hold := w.hold) else w.step.jobs[j]
  {
    if jobs != [] {
      FollowMeans(w, jobs[..|jobs|-1]);
      assert jobs == jobs[..|jobs|-1] + [jobs[|jobs|-1]];
    }
  }

  /** The status of a waiting wrapper for the reason why it waits. */
  function StatusFor(slurm: bool, reason: Reason, hold: string, status: Status): Status {
    if slurm && reason == HeldByUser && hold != "false" then HELD
    else if slurm && reason == HeldByAdmin then WAITING
    else status
  }

  /** The check of a waiting wrapper that is not cancelled: one held by the user is released if its hold
      is "false", and is HELD otherwise; one held by the administrator is WAITING. A release makes all jobs
      QUEUING; when the status of the wrapper has changed, all jobs take it. Only on slurm is the reason
      asked for. */
  lemma QueueDecides(c: Setup, w: State, prev: Status, j: Job)
    requires Holds(c, w) && !(c.slurm && c.a.reason(w.step.now) == Cancelling) && j in c.jobList
    ensures var w', reason := CheckQueue(c, w, prev), c.a.reason(w.step.now);
      var released := c.slurm && reason == HeldByUser && w.hold == "false";
      var status := StatusFor(c.slurm, reason, w.hold, w.status);
      && w' == w.(step := w'.step, status := status, newStatus := if released then QUEUING else w.newStatus)
      && w'.step.now == (if c.slurm then w.step.now + 1 else w.step.now)
      && w'.StatusOf(j) == (if prev != status then status else if released then QUEUING else w.StatusOf(j))
      && j in w'.step.jobs
      && w'.step.jobs[j].hold == if prev != status || released then w.hold else w.step.jobs[j].hold
  {
    hide HeldWrapper, FollowWrapper, StatusFor;
    HeldDecides(c, w);
    FollowMeans(HeldWrapper(c, w), c.jobList);
  }

  lemma HeldDecides(c: Setup, w: State)
    requires Holds(c, w) && !(c.slurm && c.a.reason(w.step.now) == Cancelling)
    ensures var w', reason := HeldWrapper(c, w), c.a.reason(w.step.now);
      var released := c.slurm && reason == HeldByUser && w.hold == "false";
      && w' == w.(step := w'.step, status := StatusFor(c.slurm, reason, w.hold, w.status),
                  newStatus := if released then QUEUING else w.newStatus)
      && w'.step.now == (if c.slurm then w.step.now + 1 else w.step.now) && w'.step.jobs.Keys == w.step.jobs.Keys
      && forall j :: j in c.jobList ==>
        if released then w'.StatusOf(j) == QUEUING && w'.step.jobs[j].hold == w.hold
        else w'.step.jobs[j] == w.step.jobs[j]
  {
    ReleaseMeans(c, w.Tick().(newStatus := QUEUING), c.jobList);
    hide Release;
  }

  // ---------------------------------------------------------------- confirming a failure

  /** The first question from `t` on, among the next `n`, that is answered with yes; `n` if there is none. */
  ghost function FirstYes(a: Answers, t: nat, n: nat): (k: nat)
    ensures k <= n && (k < n ==> a.yes(t + k)) && forall m :: t <= m < t + k ==> !a.yes(m)
    decreases n
  {
    if n == 0 || a.yes(t) then 0 else FirstYes(a, t + 1, n - 1) + 1
  }

  lemma {:induction false} AnyFailureDecides(c: Setup, w: State, jobs: seq<Job>)
    ensures var w', k := AnyFailure(c, w, jobs), FirstYes(c.a, w.step.now, |jobs|);
      w' == w.(failed := w.failed || k < |jobs|, step := w.step.(now := w.step.now + if k < |jobs| then k + 1 else k))
    decreases |jobs|
  {
    if jobs != [] && !Yes(c, w) { AnyFailureDecides(c, w.Tick(), jobs[1..]); }
  }

  /** A failure that is not known yet is confirmed exactly when the wrapper's own failure file exists, and
      that of a followed job. */
  lemma ConfirmationDecides(c: Setup, w: State)
    ensures var w', t := ConfirmFailure(c, w), w.step.now;
      var k := FirstYes(c.a, t + 1, |w.inner|);
      && w'.failed == (w.failed || (c.a.yes(t) && exists m :: t < m <= t + |w.inner| && c.a.yes(m)))
      && w' == w.(failed := w'.failed, step := w.step.(now := w'.step.now))
      && w'.step.now == if w.failed then t else if !c.a.yes(t) then t + 1
                        else t + 1 + if k < |w.inner| then k + 1 else k
  {
    AnyFailureDecides(c, w.Tick(), w.inner);
    hide AnyFailure;
  }

  // ---------------------------------------------------------------- failed wrappers

  lemma {:induction false} UnpolledRunning(c: Setup, names: map<string, Job>, w: State, lines: seq<PollLine>, j: Job)
    requires (forall n :: n in names ==> names[n] in w.step.jobs && names[n] != j) && j !in w.running
    ensures j !in ReadLines(c, names, w, lines).0.running
  {
    if lines != [] {
      var (before, over) := ReadLines(c, names, w, lines[..|lines|-1]);
      var line := lines[|lines|-1];
      UnpolledRunning(c, names, w, lines[..|lines|-1], j);
      ReadLinesSteps(c, names, w, lines[..|lines|-1]);
      if line.fields > 0 && line.name in names { LineDecides(c, names, before, over, line); }
      hide StartJob, EndLine, ClockAfter, LateAfter;
    }
  }

  /** A job that has failed is neither polled nor followed again. */
  lemma PollKeepsFailed(c: Setup, w: State, j: Job)
    requires Holds(c, w) && j in c.jobList && w.StatusOf(j) == FAILED && j !in w.running
    ensures CheckRunning(c, w).StatusOf(j) == FAILED && j !in CheckRunning(c, w).running
    ensures j !in CheckRunning(c, w).inner && Holds(c, CheckRunning(c, w))
  {
    var names, w0 := Named(Pollables(c, w, c.jobList)), w.(inner := Pollables(c, w, c.jobList)).Tick();
    PolledNames(c, w);
    FollowedExactly(c, w);
    CheckRunningPolls(c, w);
    hide Pollables, Named, ReadLines, FollowedNames;
    UnpolledRunning(c, names, w0, c.a.poll(w.step.now), j);
  }

  lemma CancelKeepsFailed(c: Setup, w: State, j: Job)
    requires Holds(c, w) && j in c.jobList && w.StatusOf(j) == FAILED && j !in w.running
    ensures Cancel(c, w).StatusOf(j) == FAILED && j !in Cancel(c, w).running
  {
    hide CheckRunning, Cancel;
    PollKeepsFailed(c, w, j);
    CancelDecides(c, w, j);
  }

  /** A job whose failure file is found fails for good when the failures are updated and the wrapper is
      cancelled. */
  lemma FoundFailsForGood(c: Setup, w: State, checkReady: bool, j: Job)
    requires Holds(c, w) && (forall i :: i in w.inner ==> i in w.step.jobs) && j in c.jobList
    requires FileFound(c.a, Looked(c, w, checkReady), w.step.now, j)
    ensures var w' := Cancel(c, UpdateFailed(c, w, checkReady)); w'.StatusOf(j) == FAILED && j !in w'.running
  {
    hide UpdateFailed, Cancel, FileFound, Looked;
    FailuresDecide(c, w, checkReady);
    var v := UpdateFailed(c, w, checkReady);
    assert FileFails(c, w.(inner := []), v, Looked(c, w, checkReady), j);
    CancelKeepsFailed(c, v, j);
  }

  /** A queued wrapper that is cancelled leaves no job running or queued, and every job whose failure file
      is found has failed. */
  lemma CancelledQueueDecides(c: Setup, w: State, prev: Status, j: Job)
    requires Holds(c, w) && c.slurm && c.a.reason(w.step.now) == Cancelling && j in c.jobList
    ensures var v, w' := CheckRunning(c, w.Tick()), CheckQueue(c, w, prev);
      && (w'.StatusOf(j) == COMPLETED || w'.StatusOf(j) == FAILED || w'.StatusOf(j) == WAITING)
      && (FileFound(c.a, Looked(c, v, true), v.step.now, j) ==> w'.StatusOf(j) == FAILED && j !in w'.running)
  {
    hide CheckRunning, UpdateFailed, Cancel, FileFound, Looked;
    var v := CheckRunning(c, w.Tick());
    PollHolds(c, w.Tick());
    UpdateFailedKeeps(c, v, true);
    CancelLeavesFinalOrWaiting(c, UpdateFailed(c, v, true));
    if FileFound(c.a, Looked(c, v, true), v.step.now, j) { FoundFailsForGood(c, v, true, j); }
  }

  lemma PollHolds(c: Setup, w: State)
    requires Holds(c, w)
    ensures var w' := CheckRunning(c, w); Holds(c, w') && forall i :: i in w'.inner ==> i in w'.step.jobs
  {
    var w' := CheckRunning(c, w);
    CheckRunningPolls(c, w);
    PollablesAreFollowable(c, w, c.jobList);
    PickedIn(c.jobList, Following(c, w, c.jobList));
    hide CheckRunning, Pollables, Picked, Following, NoRepeats;
    assert w'.inner == Picked(c.jobList, Following(c, w, c.jobList));
  }

  ghost predicate InnerHeld(w: State) { forall i :: i in w.inner ==> i in w.step.jobs }

  /** A wrapper that failed while it was submitted or queued is cancelled at once, and every job whose
      failure file is found has failed. */
  lemma FailedQueuedDecides(c: Setup, w: State, j: Job)
    requires Holds(c, w) && InnerHeld(w) && j in c.jobList && (w.prevStatus == SUBMITTED || w.prevStatus == QUEUING)
    ensures var w' := CheckFailed(c, w);
      && FinalOrWaiting(w', c.jobList) && w'.failed == w.failed
      && (FileFound(c.a, Looked(c, w, true), w.step.now, j) ==> w'.StatusOf(j) == FAILED && j !in w'.running)
  {
    hide UpdateFailed, Cancel, FileFound, ConfirmFailure, FinalOrWaiting, Picked, Waiting;
    var w0 := w.(status := FAILED);
    SameWaiting(w, w0, c.jobList);
    FailuresDecide(c, w0, true);
    UpdateFailedKeeps(c, w0, true);
    CancelSettles(c, UpdateFailed(c, w0, true));
    CancelDecides(c, UpdateFailed(c, w0, true), j);
    PollOutcomeFlags(c, UpdateFailed(c, w0, true));
    if FileFound(c.a, Looked(c, w, true), w.step.now, j) { FoundFailsForGood(c, w0, true, j); }
  }

  lemma SameWaiting(w: State, w': State, jobs: seq<Job>)
    requires w'.step == w.step
    ensures Waiting(w', jobs) == Waiting(w, jobs)
  {}

  lemma PollOutcomeFlags(c: Setup, w: State)
    ensures CheckRunning(c, w).failed == w.failed && CheckRunning(c, w).prevStatus == w.prevStatus
    ensures CheckRunning(c, w).status == w.status || CheckRunning(c, w).status == FAILED
  {
    CheckRunningPolls(c, w);
  }

  /** One that had failed before is polled first. It counts as failed, and so it is cancelled. */
  lemma FailedAgainDecides(c: Setup, w: State, j: Job)
    requires Holds(c, w) && j in c.jobList && (w.prevStatus == FAILED || w.prevStatus == UNKNOWN)
    ensures var v, w' := CheckRunning(c, w.(status := FAILED, failed := true)), CheckFailed(c, w);
      && FinalOrWaiting(w', c.jobList) && w'.failed
      && (FileFound(c.a, v.inner, v.step.now, j) ==> w'.StatusOf(j) == FAILED && j !in w'.running)
  {
    hide CheckRunning, UpdateFailed, Cancel, FileFound, FinalOrWaiting;
    var v := CheckRunning(c, w.(status := FAILED, failed := true));
    PollHolds(c, w.(status := FAILED, failed := true));
    PollOutcomeFlags(c, w.(status := FAILED, failed := true));
    FailuresDecide(c, v, false);
    UpdateFailedKeeps(c, v, false);
    CancelSettles(c, v);
    CancelSettles(c, UpdateFailed(c, v, false));
    CancelDecides(c, v, j);
    CancelDecides(c, UpdateFailed(c, v, false), j);
    PollOutcomeFlags(c, v);
    PollOutcomeFlags(c, UpdateFailed(c, v, false));
    if v.inner == [] { NoFileFound(c.a, v.step.now, j); }
    assert Looked(c, v, false) == v.inner;
    if FileFound(c.a, v.inner, v.step.now, j) { FoundFailsForGood(c, v, false, j); }
  }

  lemma NoFileFound(a: Answers, start: nat, j: Job)
    ensures !FileFound(a, [], start, j)
  {}

  /** Any other wrapper is cancelled if it follows no job or its failure is confirmed; otherwise nothing
      is changed but its status. */
  lemma FailedRunningDecides(c: Setup, w: State, j: Job)
    requires Holds(c, w) && InnerHeld(w) && j in c.jobList
    requires w.prevStatus !in {SUBMITTED, QUEUING, FAILED, UNKNOWN}
    ensures var v, w' := ConfirmFailure(c, w), CheckFailed(c, w);
      if w.inner != [] && !v.failed then w' == v.(status := FAILED)
      else
        && FinalOrWaiting(w', c.jobList) && w'.failed == (if w.inner == [] then w.failed else true)
        && (w.inner != [] && FileFound(c.a, w.inner, v.step.now, j) ==>
              w'.StatusOf(j) == FAILED && j !in w'.running)
  {
    hide UpdateFailed, Cancel, FileFound, FinalOrWaiting, ConfirmFailure, Looked;
    var w0 := w.(status := FAILED);
    ConfirmSame(c, w);
    var v := ConfirmFailure(c, w0);
    if w.inner == [] {
      CancelSettles(c, w0);
      CancelFlags(c, w0, j);
    } else if v.failed {
      ConfirmedDecides(c, v, j);
    }
  }

  lemma ConfirmSame(c: Setup, w: State)
    ensures var v, v0 := ConfirmFailure(c, w), ConfirmFailure(c, w.(status := FAILED));
      v0 == v.(status := FAILED) && v.inner == w.inner && v.step.jobs == w.step.jobs
  {
    ConfirmationDecides(c, w);
    ConfirmationDecides(c, w.(status := FAILED));
    hide ConfirmFailure;
  }

  lemma CancelFlags(c: Setup, w: State, j: Job)
    requires Holds(c, w) && j in c.jobList
    ensures Cancel(c, w).failed == w.failed && Cancel(c, w).prevStatus == w.prevStatus
  {
    hide CheckRunning, Cancel;
    CancelDecides(c, w, j);
    PollOutcomeFlags(c, w);
  }

  /** A wrapper whose failure is known follows no job after the failures are updated, and is cancelled. */
  lemma ConfirmedDecides(c: Setup, w: State, j: Job)
    requires Holds(c, w) && InnerHeld(w) && j in c.jobList && w.failed
    ensures var w' := Confirmed(c, w);
      && FinalOrWaiting(w', c.jobList) && w'.failed
      && (FileFound(c.a, w.inner, w.step.now, j) ==> w'.StatusOf(j) == FAILED && j !in w'.running)
  {
    hide UpdateFailed, Cancel, FileFound, FinalOrWaiting;
    var v := UpdateFailed(c, w, false);
    UpdateFailedKeeps(c, w, false);
    FailuresDecide(c, w, false);
    CancelSettles(c, v);
    CancelFlags(c, v, j);
    assert Looked(c, w, false) == w.inner;
    if FileFound(c.a, w.inner, w.step.now, j) { FoundFailsForGood(c, w, false, j); }
  }

  // ---------------------------------------------------------------- the whole check

  /** A wrapper in any other status is left alone. */
  lemma OtherStatusDecides(c: Setup, w: State, status: Status)
    requires status !in {HELD, QUEUING, RUNNING, COMPLETED, FAILED, UNKNOWN}
    ensures CheckStatus(c, w, status) == w.(prevStatus := w.status, status := status)
  {}

  /** The status that the wrapper had before is remembered. */
  lemma PreviousStatus(c: Setup, w: State, status: Status)
    requires Holds(c, w)
    ensures CheckAlive(c, w, status).prevStatus == w.status
  {
    var w0 := w.(prevStatus := w.status, status := status);
    CheckRunningPolls(c, w0);
    CheckRunningPolls(c, w0.Tick());
    SetAllSets(w0, c.jobList, QUEUING);
    CheckRunningPolls(c, SetAll(w0, c.jobList, QUEUING));
    QueueKeepsPrevious(c, w0, w.status);
    CompletionKeepsPrevious(c, CheckRunning(c, w0));
    hide CheckRunning, SetAll, CheckQueue, CheckCompleted, Pollables;
  }

  lemma QueueKeepsPrevious(c: Setup, w: State, prev: Status)
    requires Holds(c, w)
    ensures CheckQueue(c, w, prev).prevStatus == w.prevStatus
  {
    if c.slurm && c.a.reason(w.step.now) == Cancelling {
      var v := CheckRunning(c, w.Tick());
      UpdateFailedUpdates(c, v, true);
      PollOutcomeFlags(c, w.Tick());
      CancelKeepsPrevious(c, UpdateFailed(c, v, true));
    } else {
      HeldDecides(c, w);
      FollowMeans(HeldWrapper(c, w), c.jobList);
    }
    hide CheckRunning, UpdateFailed, Cancel, HeldWrapper, FollowWrapper;
  }

  lemma CancelKeepsPrevious(c: Setup, w: State)
    ensures Cancel(c, w).prevStatus == w.prevStatus
  {
    var v := CheckRunning(c, w);
    PollOutcomeFlags(c, w);
    SetAllMeans(v, v.inner, FAILED);
    CancelEachMeans(SetAll(v, v.inner, FAILED), c.jobList);
    hide CheckRunning, SetAll, CancelEach;
  }

  lemma CompletionKeepsPrevious(c: Setup, w: State)
    ensures CheckCompleted(c, w).prevStatus == w.prevStatus
    ensures CheckCompleted(c, w).inner == w.inner && CheckCompleted(c, w).status == w.status
  {
    var names, jobs := c.a.completed(w.step.now), NotCompleted(w, c.jobList);
    CompleteNamedSame(c, names, w.Tick(), jobs);
    var w1 := CompleteNamed(c, names, w.Tick(), jobs);
    FinishEachSame(c, w1.(running := w1.running - Elements(Found(names, jobs))), Missing(names, jobs));
    hide CompleteNamed, FinishEach, NotCompleted, Found, Missing;
  }

  lemma {:induction false} CompleteNamedSame(c: Setup, names: set<string>, w: State, jobs: seq<Job>)
    ensures SameWrapper(w, CompleteNamed(c, names, w, jobs))
  {
    if jobs != [] {
      CompleteNamedSame(c, names, w, jobs[..|jobs|-1]);
      CompleteJob(c, CompleteNamed(c, names, w, jobs[..|jobs|-1]), jobs[|jobs|-1]);
      hide UpdateJob, WithNewStatus;
    }
  }

  lemma {:induction false} FinishEachSame(c: Setup, w: State, jobs: seq<Job>)
    ensures SameWrapper(w, FinishEach(c, w, jobs))
  {
    if jobs != [] {
      FinishEachSame(c, w, jobs[..|jobs|-1]);
      CheckFinishedWorks(c, FinishEach(c, w, jobs[..|jobs|-1]), jobs[|jobs|-1], false);
      hide CheckFinished;
    }
  }

  /** A wrapper found RUNNING polls its jobs. If it was SUBMITTED they are all queuing before, so that it
      follows those without a parent in the wrapper, and the others end QUEUING unless they fail. */
  lemma RunningDecides(c: Setup, w: State, j: Job)
    requires Holds(c, w) && j in c.jobList
    ensures var w' := CheckAlive(c, w, RUNNING);
      if w.status == SUBMITTED then
        && (j in w'.inner <==> forall p :: p in c.g.Parents(j) ==> p !in c.jobList && w.StatusOf(p) == COMPLETED)
        && (j !in w'.inner ==> w'.StatusOf(j) == QUEUING || w'.StatusOf(j) == FAILED)
      else
        && w'.inner == Picked(c.jobList, Following(c, w.(status := RUNNING), c.jobList))
        && (j !in w'.inner ==> KeptOrFailed(w.StatusOf(j), w'.StatusOf(j)))
  {
    var w0 := w.(prevStatus := w.status, status := RUNNING);
    var w1 := if w.status == SUBMITTED then SetAll(w0, c.jobList, QUEUING) else w0;
    SetAllSets(w0, c.jobList, QUEUING);
    CheckRunningPolls(c, w1);
    FollowedExactly(c, w1);
    PollablesAreFollowable(c, w1, c.jobList);
    SameFollowing(c, w0, w.(status := RUNNING));
    hide CheckRunning, SetAll, Pollables, Following, Picked;
    assert CheckRunning(c, w1).inner == Pollables(c, w1, c.jobList);
    forall p | p in c.g.Parents(j) && w.status == SUBMITTED
      ensures w1.StatusOf(p) == COMPLETED <==> p !in c.jobList && w.StatusOf(p) == COMPLETED
    {
      if p !in w.step.jobs { assert w1.StatusOf(p) == w.StatusOf(p) == WAITING; }
    }
  }

  lemma SameFollowing(c: Setup, w: State, w': State)
    requires w'.step == w.step && w'.status == w.status
    ensures Following(c, w', c.jobList) == Following(c, w, c.jobList)
  {
    forall j ensures Followable(c, w, j) == Followable(c, w', j) {}
  }

  /** A wrapper found COMPLETED follows whatever had not finished, and finishes it. */
  lemma CompletedDecides(c: Setup, w: State)
    requires Holds(c, w)
    ensures var w' := CheckAlive(c, w, COMPLETED);
      && w'.inner == Picked(c.jobList, Following(c, w.(status := COMPLETED), c.jobList))
      && (w'.status == COMPLETED || w'.status == FAILED) && AllFinished(w', c.jobList)
  {
    var w0 := w.(prevStatus := w.status, status := COMPLETED);
    CheckRunningPolls(c, w0);
    PollablesAreFollowable(c, w0, c.jobList);
    SameFollowing(c, w0, w.(status := COMPLETED));
    CompletionKeepsPrevious(c, CheckRunning(c, w0));
    CheckCompletedFinishes(c, CheckRunning(c, w0));
    hide CheckRunning, CheckCompleted, Pollables, Following, Picked;
  }

  /** A wrapper found QUEUING or HELD, and not cancelled, ends in the status for its reason, and takes its
      jobs along when that is not the one it had. */
  lemma WaitingDecides(c: Setup, w: State, status: Status, j: Job)
    requires Holds(c, w) && (status == QUEUING || status == HELD) && j in c.jobList
    requires !(c.slurm && c.a.reason(w.step.now) == Cancelling)
    ensures var w', reason := CheckStatus(c, w, status), c.a.reason(w.step.now);
      var released := c.slurm && reason == HeldByUser && w.hold == "false";
      && w'.status == StatusFor(c.slurm, reason, w.hold, status) && w'.prevStatus == w.status
      && w'.StatusOf(j) ==
        if w.status != w'.status then w'.status else if released then QUEUING else w.StatusOf(j)
  {
    QueueDecides(c, w.(prevStatus := w.status, status := status), w.status, j);
    hide CheckQueue;
  }

  /** A wrapper found FAILED or UNKNOWN ends FAILED, with its jobs settled unless its failure is not
      confirmed. */
  lemma FailedDecides(c: Setup, w: State, status: Status)
    requires Holds(c, w) && (status == FAILED || status == UNKNOWN)
    ensures var w', v := CheckStatus(c, w, status), w.(prevStatus := w.status, status := status);
      w' == CheckFailed(c, v) && (FinalOrWaiting(w', c.jobList) || (!w'.failed && w'.inner != []))
  {
    FailedWrapperSettles(c, w.(prevStatus := w.status, status := status));
    hide CheckFailed;
  }
}

/** A wrapper, which follows its inner jobs through the answers of the platform. Every method
    is proved to take the wrapper, its jobs and the platform from one state to the next as the
    functions of WrapperSteps.dfy say. */
module Wrappers {
  import opened Jobs
  import opened WrapperSteps
  import opened WrapperSafety

  lemma NoneYet(c: Setup, w: State)
    ensures Pollables(c, w, []) == [] && Named([]) == map[]
  {}

  lemma OneMore(c: Setup, w: State, polled: seq<Job>, jobs: seq<Job>, j: Job)
    requires polled == Pollables(c, w, jobs)
    ensures Pollable(c, w.(inner := polled), j) == Pollable(c, w, j)
    ensures Pollables(c, w, jobs + [j]) == if Pollable(c, w, j) then polled + [j] else polled
    ensures Named(polled + [j]) == Named(polled)[j.name := j]
  {
    assert (jobs + [j])[..|jobs|] == jobs && (polled + [j])[..|polled|] == polled;
  }

  class WrapperJob {
    const graph: Graph
    const platform: Platform
    const jobList: seq<Job>
    var status: Status
    var prevStatus: Status
    var newStatus: Status
    var failed: bool
    var hold: string
    var runningJobsStart: map<Job, int>
    var innerJobsRunning: seq<Job>

    constructor (graph: Graph, platform: Platform, jobList: seq<Job>, status: Status, hold: string)
      requires graph.Closed() && forall j :: j in jobList ==> j in graph.Jobs()
      ensures Valid() && this.graph == graph && this.platform == platform && this.jobList == jobList
      ensures this.status == status && this.hold == hold && !failed && runningJobsStart == map[]
        && innerJobsRunning == []
    {
      this.graph, this.platform, this.jobList := graph, platform, jobList;
      this.status, prevStatus, newStatus, this.hold := status, status, status, hold;
      failed, runningJobsStart, innerJobsRunning := false, map[], [];
    }

    ghost predicate Valid()
      reads this
    {
      && graph.Closed()
      && (forall j :: j in jobList ==> j in graph.Jobs())
      && (forall j :: j in innerJobsRunning ==> j in graph.Jobs())
    }

    ghost function C(): Setup { Setup(graph, platform.answers, platform.slurm, jobList) }

    ghost function Now(): State
      reads this, graph.Jobs(), platform
    {
      State(status, prevStatus, newStatus, failed, hold, runningJobsStart, innerJobsRunning,
            Step(Snap(graph.Jobs()), platform.now))
    }

    // -------------------------------------------------------------- single jobs

    method Update(job: Job, failedFile: bool)
      requires Valid() && job in graph.Jobs()
      modifies graph.Jobs(), platform
      ensures Valid() && Now() == UpdateJob(C(), old(Now()), job, failedFile)
    {
      hide Updated;
      job.UpdateStatus(graph, platform, failedFile);
    }

    method SetNew(job: Job, s: Status)
      requires Valid() && job in graph.Jobs()
      modifies job`newStatus
      ensures Valid() && Now() == old(Now()).SetNew(job, s)
    {
      hide WithNewStatus;
      job.SetNewStatus(graph, s);
    }

    method SetStatus(job: Job, s: Status)
      requires Valid() && job in graph.Jobs()
      modifies job`status
      ensures Valid() && Now() == old(Now()).SetJob(job, s)
    {
      hide WithStatus;
      job.SetStatus(graph, s);
    }

    method SetHold(job: Job)
      requires Valid() && job in graph.Jobs()
      modifies job`hold
      ensures Valid() && Now() == old(Now()).SetHold(job, hold)
    {
      hide WithHold;
      job.SetHold(graph, hold);
    }

    method Ask() returns (b: bool)
      requires Valid()
      modifies platform
      ensures Valid() && b == Yes(C(), old(Now())) && Now() == old(Now()).Tick()
    {
      b := platform.Ask();
    }

    /** `_check_finished_job`. */
    method CheckFinishedJob(job: Job, failedFile: bool)
      requires Valid() && job in graph.Jobs()
      modifies this`runningJobsStart, graph.Jobs(), platform
      ensures Valid() && Now() == CheckFinished(C(), old(Now()), job, failedFile)
    {
      hide UpdateJob, WithNewStatus;
      var noFile := failedFile;
      SetNew(job, FAILED);
      ghost var w := Now();
      if !failedFile {
        var output, retries := false, 2;
        while !output && retries > 0
          invariant Valid() && 0 <= retries <= 2
          invariant runningJobsStart == old(runningJobsStart)
          invariant retries == 2 ==> !output && Now() == w
          invariant retries == 1 ==> output == Yes(C(), w) && Now() == w.Tick()
          invariant retries == 0 ==> !Yes(C(), w) && output == Yes(C(), w.Tick()) && Now() == w.Tick().Tick()
        {
          output := Ask();
          retries := retries - 1;
        }
        if output {
          SetNew(job, COMPLETED);
        } else {
          noFile := true;
        }
      }
      Update(job, noFile);
      runningJobsStart := runningJobsStart - {job};
    }

    // -------------------------------------------------------------- polling

    /** Whether `_check_running_jobs` asks for the job. */
    method CanBePolled(job: Job) returns (b: bool)
      requires Valid() && job in graph.Jobs()
      ensures b == Pollable(C(), Now(), job)
    {
      b := job.status != COMPLETED && job.status != FAILED
           && forall p :: p in graph.parents[job] ==> p.status == COMPLETED || status == COMPLETED;
      assert forall p :: p in graph.parents[job] ==> Now().StatusOf(p) == p.status;
    }

    /** The inner jobs to ask for, by name. */
    method FollowPollable() returns (byName: map<string, Job>)
      requires Valid()
      modifies this`innerJobsRunning
      ensures Valid()
      ensures var polled := Pollables(C(), old(Now()), jobList);
        Now() == old(Now()).(inner := polled) && byName == Named(polled) && (byName == map[] <==> polled == [])
    {
      hide Pollable, Pollables, Named;
      ghost var w := Now();
      byName, innerJobsRunning := map[], [];
      NoneYet(C(), w);
      for i := 0 to |jobList|
        invariant Valid() && innerJobsRunning == Pollables(C(), w, jobList[..i])
          && Now() == w.(inner := innerJobsRunning)
        invariant byName == Named(innerJobsRunning) && (byName == map[] <==> innerJobsRunning == [])
      {
        var job := jobList[i];
        var b := CanBePolled(job);
        OneMore(C(), w, innerJobsRunning, jobList[..i], job);
        assert jobList[..i + 1] == jobList[..i] + [job];
        if b {
          byName := byName[job.name := job];
          innerJobsRunning := innerJobsRunning + [job];
          assert job.name in byName;
        }
      }
      assert jobList[..|jobList|] == jobList;
    }

    /** A job whose poll gives a start time is running from now on, unless it was already. */
    method StartRunning(job: Job, line: PollLine)
      requires Valid() && job in graph.Jobs()
      modifies this`runningJobsStart, graph.Jobs(), platform
      ensures Valid() && Now() == StartJob(C(), old(Now()), job, line)
    {
      hide UpdateJob, WithNewStatus;
      if line.fields > 1 && job !in runningJobsStart {
        runningJobsStart := runningJobsStart[job := line.start];
        SetNew(job, RUNNING);
        Update(job, false);
      }
    }

    method ReadPollLine(byName: map<string, Job>, line: PollLine, over: bool) returns (over': bool)
      requires Valid() && forall n :: n in byName ==> byName[n] in graph.Jobs()
      modifies this`runningJobsStart, graph.Jobs(), platform
      ensures Valid() && (Now(), over') == ReadLine(C(), byName, old(Now()), over, line)
    {
      hide StartJob, CheckFinished, WithStatus;
      over' := over;
      if line.fields > 0 && line.name in byName {
        var job := byName[line.name];
        StartRunning(job, line);
        if line.fields == 2 {
          over' := Ask();
          if over' && !job.vertical { SetStatus(job, FAILED); }
        } else if line.fields == 3 {
          CheckFinishedJob(job, false);
        }
      }
    }

    method ReadPoll(byName: map<string, Job>, lines: seq<PollLine>) returns (over: bool)
      requires Valid() && forall n :: n in byName ==> byName[n] in graph.Jobs()
      modifies this`runningJobsStart, graph.Jobs(), platform
      ensures Valid() && (Now(), over) == ReadLines(C(), byName, old(Now()), lines)
    {
      hide ReadLine;
      over := false;
      for i := 0 to |lines|
        invariant Valid() && (Now(), over) == ReadLines(C(), byName, old(Now()), lines[..i])
      {
        assert lines[..i + 1][..i] == lines[..i];
        over := ReadPollLine(byName, lines[i], over);
      }
      assert lines[..|lines|] == lines;
    }

    /** The poll. The first answer ends the loop, even an empty one. */
    method PollJobs(byName: map<string, Job>) returns (retries: nat, over: bool)
      requires Valid() && forall n :: n in byName ==> byName[n] in graph.Jobs()
      modifies this`runningJobsStart, graph.Jobs(), platform
      ensures Valid() && retries == 4
      ensures (Now(), over) == ReadLines(C(), byName, old(Now()).Tick(), C().a.poll(old(Now()).step.now))
    {
      hide ReadLines;
      var answered := false;
      retries, over := 5, false;
      while !answered && retries > 0
        invariant Valid() && retries == if answered then 4 else 5
        invariant !answered ==> Now() == old(Now()) && !over
        invariant answered ==> (Now(), over) == ReadLines(C(), byName, old(Now()).Tick(),
          C().a.poll(old(Now()).step.now))
      {
        var lines := platform.Poll();
        over := ReadPoll(byName, lines);
        answered := true;
        retries := retries - 1;
      }
    }

    /** `_check_running_jobs`. */
    method CheckRunningJobs()
      requires Valid()
      modifies this, graph.Jobs(), platform
      ensures Valid() && Now() == CheckRunning(C(), old(Now()))
    {
      hide ReadLines, Pollables, Named;
      var byName := FollowPollable();
      if byName != map[] {
        NamedAmong(innerJobsRunning);
        var retries, over := PollJobs(byName);
        if retries == 0 || over {
          status := FAILED;
        }
      }
    }

    // -------------------------------------------------------------- completed wrappers

    /** The jobs of `check_inner_jobs_completed`. */
    method FindNotCompleted() returns (jobs: seq<Job>)
      requires Valid()
      ensures jobs == NotCompleted(Now(), jobList) && forall j :: j in jobs ==> j in graph.Jobs()
    {
      jobs := [];
      for i := 0 to |jobList|
        invariant jobs == NotCompleted(Now(), jobList[..i]) && forall j :: j in jobs ==> j in graph.Jobs()
      {
        assert jobList[..i + 1][..i] == jobList[..i];
        if jobList[i].status != COMPLETED { jobs := jobs + [jobList[i]]; }
      }
      assert jobList[..|jobList|] == jobList;
    }

    /** Completes the jobs whose COMPLETED file has been found. */
    method CompleteFound(files: set<string>, jobs: seq<Job>) returns (found: seq<Job>, missing: seq<Job>)
      requires Valid() && forall j :: j in jobs ==> j in graph.Jobs()
      modifies graph.Jobs(), platform
      ensures Valid() && Now() == CompleteNamed(C(), files, old(Now()), jobs)
      ensures found == Found(files, jobs) && missing == Missing(files, jobs)
      ensures forall j :: j in missing ==> j in graph.Jobs()
    {
      hide UpdateJob, WithNewStatus;
      found, missing := [], [];
      for i := 0 to |jobs|
        invariant Valid() && Now() == CompleteNamed(C(), files, old(Now()), jobs[..i])
        invariant found == Found(files, jobs[..i]) && missing == Missing(files, jobs[..i])
        invariant forall j :: j in missing ==> j in graph.Jobs()
      {
        assert jobs[..i + 1][..i] == jobs[..i];
        if jobs[i].name in files {
          found := found + [jobs[i]];
          SetNew(jobs[i], COMPLETED);
          Update(jobs[i], false);
        } else {
          missing := missing + [jobs[i]];
        }
      }
      assert jobs[..|jobs|] == jobs;
    }

    method FinishAll(jobs: seq<Job>)
      requires Valid() && forall j :: j in jobs ==> j in graph.Jobs()
      modifies this`runningJobsStart, graph.Jobs(), platform
      ensures Valid() && Now() == FinishEach(C(), old(Now()), jobs)
    {
      hide CheckFinished;
      for i := 0 to |jobs|
        invariant Valid() && Now() == FinishEach(C(), old(Now()), jobs[..i])
      {
        assert jobs[..i + 1][..i] == jobs[..i];
        CheckFinishedJob(jobs[i], false);
      }
      assert jobs[..|jobs|] == jobs;
    }

    method StopFollowing(jobs: seq<Job>)
      requires Valid()
      modifies this`runningJobsStart
      ensures Valid() && runningJobsStart == old(runningJobsStart) - Elements(jobs)
    {
      for i := 0 to |jobs|
        invariant Valid() && runningJobsStart == old(runningJobsStart) - Elements(jobs[..i])
      {
        assert jobs[..i + 1][..i] == jobs[..i];
        assert Elements(jobs[..i + 1]) == Elements(jobs[..i]) + {jobs[i]};
        runningJobsStart := runningJobsStart - {jobs[i]};
      }
      assert jobs[..|jobs|] == jobs;
    }

    /** `check_inner_jobs_completed`. */
    method CheckInnerJobsCompleted()
      requires Valid()
      modifies this, graph.Jobs(), platform
      ensures Valid() && Now() == CheckCompleted(C(), old(Now()))
    {
      hide NotCompleted, CompleteNamed, FinishEach, Found, Missing;
      var jobs := FindNotCompleted();
      if jobs != [] {
        var files := platform.CheckCompletedFiles();
        var found, missing := CompleteFound(files, jobs);
        StopFollowing(found);
        FinishAll(missing);
      }
    }

    // -------------------------------------------------------------- failing wrappers

    method FindSubmitted() returns (jobs: seq<Job>)
      requires Valid()
      ensures jobs == SubmittedJobs(Now(), jobList) && forall j :: j in jobs ==> j in graph.Jobs()
    {
      jobs := [];
      for i := 0 to |jobList|
        invariant jobs == SubmittedJobs(Now(), jobList[..i]) && forall j :: j in jobs ==> j in graph.Jobs()
      {
        assert jobList[..i + 1][..i] == jobList[..i];
        var s := jobList[i].status;
        if s == READY || s == SUBMITTED || s == QUEUING { jobs := jobs + [jobList[i]]; }
      }
      assert jobList[..|jobList|] == jobList;
    }

    /** Copies of the jobs. They are other objects. */
    method DeepCopy(jobs: seq<Job>) returns (copies: seq<Job>)
      ensures forall j :: j in copies ==> fresh(j)
    {
      copies := [];
      for i := 0 to |jobs|
        invariant forall j :: j in copies ==> fresh(j)
      {
        var j := jobs[i];
        var copy := new Job(j.name, j.level, j.vertical, j.retrials,
                            JobState(j.status, j.newStatus, j.prevStatus, j.failCount, j.hold));
        copies := copies + [copy];
      }
    }

    method FailIfFileExists(job: Job, realRunning: seq<Job>)
      requires Valid() && job in graph.Jobs()
      modifies this`runningJobsStart, this`innerJobsRunning, graph.Jobs(), platform
      ensures Valid()
      ensures Now() ==
        if job in realRunning && !Yes(C(), old(Now()))
        then old(Now()).Tick().(inner := old(innerJobsRunning) + [job])
        else FailOne(C(), old(Now()), job)
    {
      hide CheckFinished;
      var fileExists := Ask();
      if fileExists {
        var fetched := Ask();
        if fetched { CheckFinishedJob(job, true); }
      } else if job in realRunning {
        innerJobsRunning := innerJobsRunning + [job];
      }
    }

    method FailAll(jobs: seq<Job>, realRunning: seq<Job>)
      requires Valid() && forall j :: j in jobs ==> j in graph.Jobs() && j !in realRunning
      modifies this`runningJobsStart, this`innerJobsRunning, graph.Jobs(), platform
      ensures Valid() && Now() == FailEach(C(), old(Now()), jobs)
    {
      hide FailOne;
      for i := 0 to |jobs|
        invariant Valid() && Now() == FailEach(C(), old(Now()), jobs[..i])
      {
        assert jobs[..i + 1][..i] == jobs[..i];
        FailIfFileExists(jobs[i], realRunning);
      }
      assert jobs[..|jobs|] == jobs;
    }

    /** `update_failed_jobs`. */
    method UpdateFailedJobs(checkReadyJobs: bool)
      requires Valid()
      modifies this, graph.Jobs(), platform
      ensures Valid() && Now() == UpdateFailed(C(), old(Now()), checkReadyJobs)
    {
      hide SubmittedJobs, FailEach;
      var runningJobs := innerJobsRunning;
      var realRunning := DeepCopy(innerJobsRunning);
      if checkReadyJobs {
        var submitted := FindSubmitted();
        runningJobs := runningJobs + submitted;
      }
      assert runningJobs == Suspects(C(), old(Now()), checkReadyJobs);
      innerJobsRunning := [];
      FailAll(runningJobs, realRunning);
    }

    method SetAllTo(jobs: seq<Job>, s: Status)
      requires Valid() && forall j :: j in jobs ==> j in graph.Jobs()
      modifies graph.Jobs()`status
      ensures Valid() && Now() == SetAll(old(Now()), jobs, s)
    {
      hide WithStatus;
      for i := 0 to |jobs|
        invariant Valid() && Now() == SetAll(old(Now()), jobs[..i], s)
      {
        assert jobs[..i + 1][..i] == jobs[..i];
        SetStatus(jobs[i], s);
      }
      assert jobs[..|jobs|] == jobs;
    }

    method CancelJob(job: Job)
      requires Valid() && job in graph.Jobs()
      modifies graph.Jobs()
      ensures Valid() && Now() == CancelOne(old(Now()), job)
    {
      hide WithStatus, WithFailCount;
      assert Now().StatusOf(job) == job.status;
      if job.status != COMPLETED && job.status != FAILED {
        SetStatus(job, WAITING);
      } else if job.vertical {
        job.SpendRetrials(graph);
      }
    }

    /** `cancel_failed_wrapper_job`. */
    method CancelFailedWrapperJob()
      requires Valid()
      modifies this, graph.Jobs(), platform
      ensures Valid() && Now() == Cancel(C(), old(Now()))
    {
      hide CheckRunning, SetAll, CancelOne;
      CheckRunningJobs();
      SetAllTo(innerJobsRunning, FAILED);
      ghost var w := Now();
      for i := 0 to |jobList|
        invariant Valid() && Now() == CancelEach(w, jobList[..i])
      {
        assert jobList[..i + 1][..i] == jobList[..i];
        CancelJob(jobList[i]);
      }
      assert jobList[..|jobList|] == jobList;
    }

    // -------------------------------------------------------------- waiting wrappers

    method ReleaseAll()
      requires Valid()
      modifies graph.Jobs(), platform
      ensures Valid() && Now() == Release(C(), old(Now()), jobList)
    {
      hide UpdateJob, WithHold, WithNewStatus;
      for i := 0 to |jobList|
        invariant Valid() && Now() == Release(C(), old(Now()), jobList[..i])
      {
        assert jobList[..i + 1][..i] == jobList[..i];
        SetHold(jobList[i]);
        SetNew(jobList[i], QUEUING);
        Update(jobList[i], false);
      }
      assert jobList[..|jobList|] == jobList;
    }

    method FollowAll()
      requires Valid()
      modifies graph.Jobs()
      ensures Valid() && Now() == FollowWrapper(old(Now()), jobList)
    {
      hide WithHold, WithStatus;
      for i := 0 to |jobList|
        invariant Valid() && Now() == FollowWrapper(old(Now()), jobList[..i])
      {
        assert jobList[..i + 1][..i] == jobList[..i];
        SetHold(jobList[i]);
        SetStatus(jobList[i], status);
      }
      assert jobList[..|jobList|] == jobList;
    }

    method HoldOrRelease(reason: Reason)
      requires Valid() && reason != Cancelling
      modifies this, graph.Jobs(), platform
      ensures Valid() && Now() == HeldFor(C(), old(Now()), reason)
    {
      hide Release;
      match reason {
        case HeldByUser =>
          if hold == "false" {
            newStatus := QUEUING;
            ReleaseAll();
          } else {
            status := HELD;
          }
        case HeldByAdmin => status := WAITING;
        case _ =>
      }
    }

    method CancelQueued()
      requires Valid()
      modifies this, graph.Jobs(), platform
      ensures Valid() && Now() == Cancel(C(), UpdateFailed(C(), CheckRunning(C(), old(Now())), true))
    {
      hide CheckRunning, UpdateFailed, Cancel;
      CheckRunningJobs();
      UpdateFailedJobs(true);
      CancelFailedWrapperJob();
    }

    /** `_check_inner_jobs_queue`. */
    method CheckInnerJobsQueue(prev: Status)
      requires Valid()
      modifies this, graph.Jobs(), platform
      ensures Valid() && Now() == CheckQueue(C(), old(Now()), prev)
    {
      hide CheckRunning, UpdateFailed, Cancel, HeldFor, FollowWrapper;
      if platform.slurm {
        var reason := platform.QueueReason();
        if reason == Cancelling {
          CancelQueued();
          return;
        }
        HoldOrRelease(reason);
      }
      if prev != status { FollowAll(); }
    }

    // -------------------------------------------------------------- the whole check

    /** The search for the failure file of a followed job, up to the first one found. */
    method LookForFailure()
      requires Valid()
      modifies this`failed, platform
      ensures Valid() && Now() == AnyFailure(C(), old(Now()), innerJobsRunning)
    {
      var i := 0;
      while i < |innerJobsRunning|
        invariant Valid() && i <= |innerJobsRunning|
        invariant AnyFailure(C(), Now(), innerJobsRunning[i..]) == AnyFailure(C(), old(Now()), innerJobsRunning)
      {
        ghost var w := Now();
        var found := Ask();
        if found {
          failed := true;
          return;
        }
        assert innerJobsRunning[i..][1..] == innerJobsRunning[i + 1..];
        i := i + 1;
      }
    }

    method UpdateFailedBefore()
      requires Valid()
      modifies this, graph.Jobs(), platform
      ensures Valid() && Now() == UpdateFailedWrapper(C(), old(Now()))
    {
      hide CheckRunning, UpdateFailed;
      if prevStatus == SUBMITTED || prevStatus == QUEUING {
        UpdateFailedJobs(true);
      } else if prevStatus == FAILED || prevStatus == UNKNOWN {
        failed := true;
        CheckRunningJobs();
      }
    }

    method ConfirmWrapperFailure()
      requires Valid()
      modifies this`failed, platform
      ensures Valid() && Now() == ConfirmFailure(C(), old(Now()))
    {
      hide AnyFailure;
      if !failed {
        var fileExists := Ask();
        if fileExists { LookForFailure(); }
      }
    }

    /** Whether a wrapper with followed jobs still runs after its failures have been updated. */
    method ConfirmAndUpdate() returns (stillRunning: bool)
      requires Valid()
      modifies this, graph.Jobs(), platform
      ensures Valid()
      ensures var w := ConfirmFailure(C(), old(Now()));
        Now() == (if w.failed then UpdateFailed(C(), w, false) else w)
          && stillRunning == (w.failed ==> innerJobsRunning != [])
    {
      hide UpdateFailed, ConfirmFailure;
      stillRunning := true;
      ConfirmWrapperFailure();
      if failed {
        UpdateFailedJobs(false);
        if |innerJobsRunning| == 0 { stillRunning := false; }
      }
    }

    /** The branch of `check_status` for failed wrappers. */
    method CheckFailedStatus()
      requires Valid()
      modifies this, graph.Jobs(), platform
      ensures Valid() && Now() == CheckFailed(C(), old(Now()))
    {
      hide UpdateFailedWrapper, ConfirmFailure, UpdateFailed, Cancel;
      status := FAILED;
      UpdateFailedBefore();
      var stillRunning := false;
      if |innerJobsRunning| > 0 { stillRunning := ConfirmAndUpdate(); }
      if !stillRunning { CancelFailedWrapperJob(); }
    }

    method CheckAliveStatus(status: Status)
      requires Valid()
      modifies this, graph.Jobs(), platform
      ensures Valid() && Now() == CheckAlive(C(), old(Now()), status)
    {
      hide CheckRunning, CheckCompleted, CheckQueue, SetAll;
      var prev := this.status;
      prevStatus := prev;
      this.status := status;
      if status == HELD || status == QUEUING {
        CheckInnerJobsQueue(prev);
      } else if status == RUNNING {
        if prev == SUBMITTED { SetAllTo(jobList, QUEUING); }
        CheckRunningJobs();
      } else if status == COMPLETED {
        CheckRunningJobs();
        CheckInnerJobsCompleted();
      }
    }

    /** `check_status`. A safe wrapper stays safe. */
    method CheckStatus(status: Status)
      requires Valid()
      modifies this, graph.Jobs(), platform
      ensures Valid() && Now() == WrapperSteps.CheckStatus(C(), old(Now()), status)
      ensures old(Safe(C(), Now())) ==> Safe(C(), Now())
    {
      if Safe(C(), Now()) { CheckStatusSafe(C(), Now(), status); }
      hide CheckAlive, CheckFailed, Safe;
      CheckAliveStatus(status);
      if this.status == FAILED || this.status == UNKNOWN { CheckFailedStatus(); }
    }
  }
}

/** What the checks of a wrapper keep, whatever the platform answers: no job runs before its
    parents have completed, and every job ends in a final status. */
module WrapperSafety {
  import opened Jobs
  import opened WrapperSteps

  // ---------------------------------------------------------------- the invariant

  /** Every running job has all its parents completed, inside the wrapper and outside, and none
      of its parents is still followed as running. */
  ghost predicate Safe(c: Setup, w: State) {
    forall j :: j in c.jobList ==> SafeJob(c, w, j)
  }

  ghost predicate SafeJob(c: Setup, w: State, j: Job) {
    w.StatusOf(j) == RUNNING ==> forall p :: p in c.g.Parents(j) ==> w.StatusOf(p) == COMPLETED && p !in w.inner
  }

  ghost predicate NoneRunning(w: State, jobs: seq<Job>) {
    forall j :: j in jobs ==> w.StatusOf(j) != RUNNING
  }

  ghost predicate AllFinished(w: State, jobs: seq<Job>) {
    forall j :: j in jobs ==> Finished(w.StatusOf(j))
  }

  // ---------------------------------------------------------------- frames

  /** Outside `touched`, a job keeps its status or, from a failable one, has failed. */
  ghost predicate Frame(w: State, w': State, touched: set<Job>) {
    && w'.step.jobs.Keys == w.step.jobs.Keys
    && forall j :: j in w.step.jobs && j !in touched ==> KeptOrFailed(w.StatusOf(j), w'.StatusOf(j))
  }

  predicate KeptOrFailed(s: Status, s': Status) { s' == s || (Failable(s) && s' == FAILED) }

  lemma FrameTransitive(w: State, w1: State, w2: State, a: set<Job>, b: set<Job>, touched: set<Job>)
    requires Frame(w, w1, a) && Frame(w1, w2, b) && a <= touched && b <= touched
    ensures Frame(w, w2, touched)
  {}

  /** Apart from the state of the jobs and the clock, nothing has changed. */
  ghost predicate SameWrapper(w: State, w': State) {
    w'.status == w.status && w'.prevStatus == w.prevStatus && w'.newStatus == w.newStatus && w'.failed == w.failed
    && w'.hold == w.hold && w'.inner == w.inner
  }

  lemma FailingIsEligible(g: Graph, st: Snapshot, from: Job, j: Job)
    requires Failing(g, st, from, j)
    ensures Eligible(st, j)
  {
    var n: nat :| j in Frontier(g, st, from, n);
  }

  lemma PropagateKeeps(g: Graph, st: Snapshot, from: Job)
    ensures var st' := Propagate(g, st, from);
      && st'.Keys == st.Keys
      && forall j :: j in st ==>
        KeptOrFailed(st[j].status, st'[j].status) && (st'[j].status != FAILED ==> st'[j] == st[j])
  {
    forall j | j in st && Failing(g, st, from, j) ensures Failable(st[j].status) { FailingIsEligible(g, st, from, j); }
  }

  /** What `update_status` does to its job, and to the others. */
  lemma UpdateJobWorks(c: Setup, w: State, j: Job, failedFile: bool)
    ensures var w' := UpdateJob(c, w, j, failedFile);
      && Frame(w, w', {j}) && SameWrapper(w, w') && w'.running == w.running
      && (j in w.step.jobs ==>
          var s := w.step.jobs[j].newStatus;
          if s == COMPLETED then Finished(w'.StatusOf(j))
          else if s == UNKNOWN then w'.StatusOf(j) == COMPLETED || w'.StatusOf(j) == UNKNOWN
          else w'.StatusOf(j) == s)
  {
    forall st: Snapshot ensures var st' := Propagate(c.g, st, j);
      && st'.Keys == st.Keys
      && forall k :: k in st ==>
        KeptOrFailed(st[k].status, st'[k].status) && (st'[k].status != FAILED ==> st'[k] == st[k])
    {
      PropagateKeeps(c.g, st, j);
    }
    hide Propagate;
  }

  /** `v` has the jobs of `w` in the same statuses, and differs in nothing else but the clock. */
  ghost predicate SameStatuses(w: State, v: State) {
    && SameWrapper(w, v) && v.step.jobs.Keys == w.step.jobs.Keys
    && forall j :: j in w.step.jobs ==> v.StatusOf(j) == w.StatusOf(j)
  }

  lemma UpdateFinishes(c: Setup, w: State, v: State, j: Job, failedFile: bool)
    requires SameStatuses(w, v)
    requires j in v.step.jobs ==> Finished(v.step.jobs[j].newStatus)
    ensures FinishesJob(w, UpdateJob(c, v, j, failedFile), j)
  {
    UpdateJobWorks(c, v, j, failedFile);
    hide Updated;
  }

  lemma SetNewSame(w: State, v: State, j: Job, s: Status)
    requires SameStatuses(w, v)
    ensures SameStatuses(w, v.SetNew(j, s)) && (j in w.step.jobs ==> v.SetNew(j, s).step.jobs[j].newStatus == s)
  {}

  lemma TickSame(w: State, v: State)
    requires SameStatuses(w, v)
    ensures SameStatuses(w, v.Tick()) && v.Tick().step.jobs == v.step.jobs
  {}

  /** The effect of finishing a job. */
  ghost predicate FinishesJob(w: State, w': State, j: Job) {
    Frame(w, w', {j}) && SameWrapper(w, w') && (j in w.step.jobs ==> Finished(w'.StatusOf(j)))
  }

  lemma RunningIsApart(w: State, w': State, running: map<Job, int>, j: Job)
    ensures FinishesJob(w, w', j) ==> FinishesJob(w, w'.(running := running), j)
  {}

  lemma CheckFinishedWorks(c: Setup, w: State, j: Job, failedFile: bool)
    ensures FinishesJob(w, CheckFinished(c, w, j, failedFile), j)
  {
    var w0 := w.SetNew(j, FAILED);
    SetNewSame(w, w, j, FAILED);
    TickSame(w, w0);
    TickSame(w, w0.Tick());
    SetNewSame(w, w0.Tick(), j, COMPLETED);
    SetNewSame(w, w0.Tick().Tick(), j, COMPLETED);
    UpdateFinishes(c, w, w0, j, true);
    UpdateFinishes(c, w, w0.Tick().SetNew(j, COMPLETED), j, false);
    UpdateFinishes(c, w, w0.Tick().Tick().SetNew(j, COMPLETED), j, false);
    UpdateFinishes(c, w, w0.Tick().Tick(), j, true);
    FinishedThen(c, w, j, failedFile);
  }

  lemma FinishedThen(c: Setup, w: State, j: Job, failedFile: bool)
    requires var w0 := w.SetNew(j, FAILED);
      && FinishesJob(w, UpdateJob(c, w0, j, true), j)
      && FinishesJob(w, UpdateJob(c, w0.Tick().SetNew(j, COMPLETED), j, false), j)
      && FinishesJob(w, UpdateJob(c, w0.Tick().Tick().SetNew(j, COMPLETED), j, false), j)
      && FinishesJob(w, UpdateJob(c, w0.Tick().Tick(), j, true), j)
    ensures FinishesJob(w, CheckFinished(c, w, j, failedFile), j)
  {
    hide UpdateJob, FinishesJob, WithNewStatus;
    forall v: State, running ensures FinishesJob(w, v, j) ==> FinishesJob(w, v.(running := running), j) {
      RunningIsApart(w, v, running, j);
    }
  }

  // ---------------------------------------------------------------- one poll

  lemma {:induction false} PollablesExactly(c: Setup, w: State, jobs: seq<Job>)
    ensures forall j :: j in Pollables(c, w, jobs) <==> j in jobs && Pollable(c, w, j)
  {
    if jobs != [] {
      var last := |jobs| - 1;
      PollablesExactly(c, w, jobs[..last]);
      assert jobs == jobs[..last] + [jobs[last]];
    }
  }

  lemma {:induction false} NamedAmong(jobs: seq<Job>)
    ensures forall n :: n in Named(jobs) ==> Named(jobs)[n] in jobs
  {
    if jobs != [] { NamedAmong(jobs[..|jobs|-1]); }
  }

  lemma SetJobFrame(w: State, j: Job, s: Status)
    ensures Frame(w, w.SetJob(j, s), {j}) && SameWrapper(w, w.SetJob(j, s))
    ensures j in w.step.jobs ==> w.SetJob(j, s).StatusOf(j) == s
    ensures forall k :: k != j ==> w.SetJob(j, s).StatusOf(k) == w.StatusOf(k)
  {}

  lemma StartJobFrame(c: Setup, w: State, running: map<Job, int>, j: Job)
    ensures var w' := UpdateJob(c, w.(running := running).SetNew(j, RUNNING), j, false);
      Frame(w, w', {j}) && SameWrapper(w, w')
  {
    var v := w.(running := running).SetNew(j, RUNNING);
    SetNewSame(w, w.(running := running), j, RUNNING);
    UpdateJobWorks(c, v, j, false);
    hide UpdateJob;
  }

  lemma ReadLineFrame(c: Setup, names: map<string, Job>, w: State, over: bool, line: PollLine, polled: set<Job>)
    requires forall n :: n in names ==> names[n] in polled
    ensures var w' := ReadLine(c, names, w, over, line).0; Frame(w, w', polled) && SameWrapper(w, w')
  {
    if line.fields != 0 && line.name in names {
      var j := names[line.name];
      var w1 := StartJob(c, w, j, line);
      StartJobFrame(c, w, w.running[j := line.start], j);
      assert Frame(w, w1, {j}) && SameWrapper(w, w1);
      LineEndFrame(c, w1, j, over, line.fields);
      hide StartJob, EndLine;
      FrameTransitive(w, w1, EndLine(c, w1, j, over, line.fields).0, {j}, {j}, polled);
    }
  }

  lemma LineEndFrame(c: Setup, w: State, j: Job, over: bool, fields: nat)
    ensures var w' := EndLine(c, w, j, over, fields).0; Frame(w, w', {j}) && SameWrapper(w, w')
  {
    SetJobFrame(w.Tick(), j, FAILED);
    CheckFinishedWorks(c, w, j, false);
    hide CheckFinished;
  }

  lemma {:induction false} ReadLinesFrame(c: Setup, names: map<string, Job>, w: State, lines: seq<PollLine>,
                                          polled: set<Job>)
    requires forall n :: n in names ==> names[n] in polled
    ensures var w' := ReadLines(c, names, w, lines).0; Frame(w, w', polled) && SameWrapper(w, w')
  {
    if lines != [] {
      var (before, over) := ReadLines(c, names, w, lines[..|lines|-1]);
      ReadLinesFrame(c, names, w, lines[..|lines|-1], polled);
      ReadLineFrame(c, names, before, over, lines[|lines|-1], polled);
      hide ReadLine;
      FrameTransitive(w, before, ReadLines(c, names, w, lines).0, polled, polled, polled);
    }
  }

  /** What a poll leaves: the polled jobs are the followed ones, and no other job changed
      except to fail. */
  ghost predicate Polled(c: Setup, w: State, w': State) {
    && w'.inner == Pollables(c, w, c.jobList)
    && Frame(w, w', set j | j in w'.inner)
    && (w'.status == w.status || w'.status == FAILED)
    && w'.prevStatus == w.prevStatus && w'.failed == w.failed && w'.hold == w.hold
  }

  lemma CheckRunningPolls(c: Setup, w: State)
    ensures Polled(c, w, CheckRunning(c, w))
  {
    var polled := Pollables(c, w, c.jobList);
    var w0 := w.(inner := polled);
    NamedAmong(polled);
    ReadLinesFrame(c, Named(polled), w0.Tick(), c.a.poll(w0.step.now), set j | j in polled);
    hide ReadLines, Pollables;
  }

  lemma PollKeepsSafe(c: Setup, w: State, w': State)
    requires Safe(c, w) && Polled(c, w, w') && w.status != COMPLETED
    ensures Safe(c, w') && w'.status != COMPLETED
  {
    PollablesExactly(c, w, c.jobList);
    hide Pollables;
    forall j | j in c.jobList ensures SafeJob(c, w', j) {
      assert SafeJob(c, w, j);
      if w'.StatusOf(j) == RUNNING {
        forall p | p in c.g.Parents(j) ensures w'.StatusOf(p) == COMPLETED && p !in w'.inner {
          assert w.StatusOf(p) == COMPLETED;
        }
      }
    }
  }

  lemma CheckRunningSafe(c: Setup, w: State)
    requires Safe(c, w) && w.status != COMPLETED
    ensures Safe(c, CheckRunning(c, w)) && CheckRunning(c, w).status != COMPLETED
    ensures CheckRunning(c, w).step.jobs.Keys == w.step.jobs.Keys
  {
    CheckRunningPolls(c, w);
    PollKeepsSafe(c, w, CheckRunning(c, w));
  }

  // ---------------------------------------------------------------- failed jobs

  /** The listed jobs may have finished; nothing has started to run. */
  ghost predicate OnlyFinishes(w: State, w': State, jobs: set<Job>) {
    && Frame(w, w', jobs) && SameWrapper(w, w')
    && forall j :: j in w.step.jobs && j in jobs ==> w'.StatusOf(j) == w.StatusOf(j) || Finished(w'.StatusOf(j))
  }

  lemma OnlyFinishesTransitive(w: State, w1: State, w2: State, a: set<Job>, b: set<Job>)
    requires OnlyFinishes(w, w1, a) && OnlyFinishes(w1, w2, b)
    ensures OnlyFinishes(w, w2, a + b)
  {}

  lemma FailOneFinishes(c: Setup, w: State, j: Job)
    ensures OnlyFinishes(w, FailOne(c, w, j), {j})
  {
    CheckFinishedWorks(c, w.Tick().Tick(), j, true);
    hide CheckFinished;
    assert OnlyFinishes(w, w.Tick(), {j}) && OnlyFinishes(w, w.Tick().Tick(), {j});
    if Yes(c, w) && Yes(c, w.Tick()) {
      OnlyFinishesTransitive(w, w.Tick().Tick(), FailOne(c, w, j), {j}, {j});
    }
  }

  lemma {:induction false} FailEachFinishes(c: Setup, w: State, jobs: seq<Job>)
    ensures OnlyFinishes(w, FailEach(c, w, jobs), set j | j in jobs)
  {
    if jobs != [] {
      var init, last := jobs[..|jobs|-1], jobs[|jobs|-1];
      FailEachFinishes(c, w, init);
      FailOneFinishes(c, FailEach(c, w, init), last);
      hide FailOne;
      OnlyFinishesTransitive(w, FailEach(c, w, init), FailEach(c, w, jobs), set j | j in init, {last});
      assert jobs == init + [last];
      assert (set j | j in jobs) == (set j | j in init) + {last};
    }
  }

  lemma {:induction false} SubmittedExactly(w: State, jobs: seq<Job>)
    ensures forall j :: j in SubmittedJobs(w, jobs) <==> j in jobs && Submitted(w.StatusOf(j))
  {
    if jobs != [] {
      var last := |jobs| - 1;
      SubmittedExactly(w, jobs[..last]);
      assert jobs == jobs[..last] + [jobs[last]];
    }
  }

  /** What updating the failed jobs leaves. */
  ghost predicate FailuresUpdated(c: Setup, w: State, w': State, checkReady: bool) {
    && OnlyFinishes(w.(inner := []), w', set j | j in Suspects(c, w, checkReady))
    && w'.inner == []
  }

  lemma UpdateFailedUpdates(c: Setup, w: State, checkReady: bool)
    ensures FailuresUpdated(c, w, UpdateFailed(c, w, checkReady), checkReady)
  {
    FailEachFinishes(c, w.(inner := []), Suspects(c, w, checkReady));
    hide FailEach, Suspects;
  }

  lemma FailuresKeepSafe(c: Setup, w: State, w': State, checkReady: bool)
    requires Safe(c, w) && FailuresUpdated(c, w, w', checkReady)
    ensures Safe(c, w')
  {
    SubmittedExactly(w, c.jobList);
    hide SubmittedJobs;
    forall j | j in c.jobList ensures SafeJob(c, w', j) {
      assert SafeJob(c, w, j);
      if w'.StatusOf(j) == RUNNING {
        forall p | p in c.g.Parents(j) ensures w'.StatusOf(p) == COMPLETED {
          assert w.StatusOf(p) == COMPLETED && p !in w.inner;
        }
      }
    }
  }

  lemma UpdateFailedSafe(c: Setup, w: State, checkReady: bool)
    requires Safe(c, w)
    ensures var w' := UpdateFailed(c, w, checkReady);
      Safe(c, w') && w'.status == w.status && w'.step.jobs.Keys == w.step.jobs.Keys
  {
    UpdateFailedUpdates(c, w, checkReady);
    FailuresKeepSafe(c, w, UpdateFailed(c, w, checkReady), checkReady);
  }

  // ---------------------------------------------------------------- cancelling

  lemma {:induction false} SetAllSets(w: State, jobs: seq<Job>, s: Status)
    ensures var w' := SetAll(w, jobs, s);
      && w'.step.jobs.Keys == w.step.jobs.Keys && SameWrapper(w, w')
      && forall j :: j in w.step.jobs ==> w'.StatusOf(j) == if j in jobs then s else w.StatusOf(j)
  {
    if jobs != [] {
      var init, last := jobs[..|jobs|-1], jobs[|jobs|-1];
      SetAllSets(w, init, s);
      SetJobFrame(SetAll(w, init, s), last, s);
      assert jobs == init + [last];
    }
  }

  lemma CancelOneSets(w: State, j: Job)
    ensures var w' := CancelOne(w, j);
      && w'.step.jobs.Keys == w.step.jobs.Keys && SameWrapper(w, w')
      && forall k :: k in w.step.jobs ==>
          w'.StatusOf(k) == if k == j && !Finished(w.StatusOf(k)) then WAITING else w.StatusOf(k)
  {}

  lemma {:induction false} CancelEachSets(w: State, jobs: seq<Job>)
    ensures var w' := CancelEach(w, jobs);
      && w'.step.jobs.Keys == w.step.jobs.Keys && SameWrapper(w, w')
      && forall j :: j in w.step.jobs ==>
          w'.StatusOf(j) == if j in jobs && !Finished(w.StatusOf(j)) then WAITING else w.StatusOf(j)
  {
    if jobs != [] {
      var init, last := jobs[..|jobs|-1], jobs[|jobs|-1];
      CancelEachSets(w, init);
      CancelOneSets(CancelEach(w, init), last);
      hide CancelOne;
      assert jobs == init + [last];
    }
  }

  /** After a cancellation every inner job is COMPLETED, FAILED or WAITING, and those that had
      finished before keep their status. The jobs that could be polled fail, even those that
      the last poll finds completed. */
  lemma CancelLeavesFinalOrWaiting(c: Setup, w: State)
    requires forall j :: j in c.jobList ==> j in w.step.jobs
    ensures var w' := Cancel(c, w);
      && w'.step.jobs.Keys == w.step.jobs.Keys
      && forall j :: j in c.jobList ==>
          && (w'.StatusOf(j) == COMPLETED || w'.StatusOf(j) == FAILED || w'.StatusOf(j) == WAITING)
          && (Finished(w.StatusOf(j)) ==> w'.StatusOf(j) == w.StatusOf(j))
          && (Pollable(c, w, j) ==> w'.StatusOf(j) == FAILED)
  {
    var w0 := CheckRunning(c, w);
    CheckRunningPolls(c, w);
    PollablesExactly(c, w, c.jobList);
    SetAllSets(w0, w0.inner, FAILED);
    CancelEachSets(SetAll(w0, w0.inner, FAILED), c.jobList);
    hide CheckRunning, Pollables, SetAll, CancelEach;
  }

  lemma NoneRunningIsSafe(c: Setup, w: State)
    requires NoneRunning(w, c.jobList)
    ensures Safe(c, w)
  {}

  lemma CancelSafe(c: Setup, w: State)
    requires forall j :: j in c.jobList ==> j in w.step.jobs
    ensures Safe(c, Cancel(c, w)) && Cancel(c, w).step.jobs.Keys == w.step.jobs.Keys
  {
    CancelLeavesFinalOrWaiting(c, w);
    hide Cancel;
    NoneRunningIsSafe(c, Cancel(c, w));
  }

  // ---------------------------------------------------------------- waiting wrappers

  lemma SetHoldSame(w: State, j: Job, hold: string)
    ensures SameStatuses(w, w.SetHold(j, hold))
  {}

  lemma {:induction false} FollowSets(w: State, jobs: seq<Job>)
    ensures var w' := FollowWrapper(w, jobs);
      && w'.step.jobs.Keys == w.step.jobs.Keys && SameWrapper(w, w')
      && forall j :: j in w.step.jobs ==> w'.StatusOf(j) == if j in jobs then w.status else w.StatusOf(j)
  {
    if jobs != [] {
      var init, last := jobs[..|jobs|-1], jobs[|jobs|-1];
      FollowSets(w, init);
      var before := FollowWrapper(w, init);
      SetHoldSame(before, last, w.hold);
      SetJobFrame(before.SetHold(last, w.hold), last, w.status);
      hide WithHold, WithStatus;
      assert jobs == init + [last];
    }
  }

  lemma ReleaseOne(c: Setup, w: State, j: Job, hold: string)
    ensures var w' := UpdateJob(c, w.SetHold(j, hold).SetNew(j, QUEUING), j, false);
      && w'.step.jobs.Keys == w.step.jobs.Keys && SameWrapper(w, w') && Frame(w, w', {j})
      && (j in w.step.jobs ==> w'.StatusOf(j) == QUEUING)
  {
    SetHoldSame(w, j, hold);
    SetNewSame(w, w.SetHold(j, hold), j, QUEUING);
    UpdateJobWorks(c, w.SetHold(j, hold).SetNew(j, QUEUING), j, false);
    hide UpdateJob;
  }

  /** A released job is queuing, until a later one fails it. */
  lemma {:induction false} ReleaseStopsAll(c: Setup, w: State, jobs: seq<Job>)
    requires forall j :: j in jobs ==> j in w.step.jobs
    ensures var w' := Release(c, w, jobs);
      w'.step.jobs.Keys == w.step.jobs.Keys && SameWrapper(w, w') && NoneRunning(w', jobs)
  {
    if jobs != [] {
      var init, last := jobs[..|jobs|-1], jobs[|jobs|-1];
      assert jobs == init + [last];
      ReleaseStopsAll(c, w, init);
      ReleaseOne(c, Release(c, w, init), last, w.hold);
      hide UpdateJob, WithHold, WithNewStatus;
    }
  }

  ghost predicate Holds(c: Setup, w: State) {
    forall j :: j in c.jobList ==> j in w.step.jobs
  }

  lemma SafeApart(c: Setup, w: State, w': State)
    requires Safe(c, w) && w'.step.jobs == w.step.jobs && w'.inner == w.inner
    ensures Safe(c, w')
  {
    forall j | j in c.jobList ensures SafeJob(c, w', j) {
      assert SafeJob(c, w, j);
    }
  }

  lemma HeldWrapperSafe(c: Setup, w: State)
    requires Safe(c, w) && Holds(c, w) && (w.status == HELD || w.status == QUEUING)
    ensures var w' := HeldWrapper(c, w);
      Safe(c, w') && w'.step.jobs.Keys == w.step.jobs.Keys && w'.status != RUNNING
  {
    var w0 := w.Tick().(newStatus := QUEUING);
    ReleaseStopsAll(c, w0, c.jobList);
    NoneRunningIsSafe(c, Release(c, w0, c.jobList));
    SafeApart(c, w, w.Tick());
    SafeApart(c, w, w.Tick().(status := HELD));
    SafeApart(c, w, w.Tick().(status := WAITING));
    hide Release, Safe;
  }

  lemma FollowSafe(c: Setup, w: State)
    requires Holds(c, w) && w.status != RUNNING
    ensures Safe(c, FollowWrapper(w, c.jobList)) && FollowWrapper(w, c.jobList).step.jobs.Keys == w.step.jobs.Keys
  {
    FollowSets(w, c.jobList);
    hide FollowWrapper;
    NoneRunningIsSafe(c, FollowWrapper(w, c.jobList));
  }

  lemma CheckQueueSafe(c: Setup, w: State, prev: Status)
    requires Safe(c, w) && Holds(c, w) && (w.status == HELD || w.status == QUEUING)
    ensures Safe(c, CheckQueue(c, w, prev)) && CheckQueue(c, w, prev).step.jobs.Keys == w.step.jobs.Keys
  {
    HeldWrapperSafe(c, w);
    FollowSafe(c, HeldWrapper(c, w));
    SafeApart(c, w, w.Tick());
    if c.slurm && c.a.reason(w.step.now) == Cancelling {
      CheckRunningSafe(c, w.Tick());
      UpdateFailedSafe(c, CheckRunning(c, w.Tick()), true);
      CancelSafe(c, UpdateFailed(c, CheckRunning(c, w.Tick()), true));
    }
    hide HeldWrapper, FollowWrapper, CheckRunning, UpdateFailed, Cancel, Safe;
  }

  // ---------------------------------------------------------------- completed wrappers

  lemma {:induction false} NotCompletedExactly(w: State, jobs: seq<Job>)
    ensures forall j :: j in NotCompleted(w, jobs) ==> j in jobs
    ensures forall j :: j in jobs ==> (j in NotCompleted(w, jobs) <==> w.StatusOf(j) != COMPLETED)
  {
    if jobs != [] {
      var last := |jobs| - 1;
      NotCompletedExactly(w, jobs[..last]);
      assert jobs == jobs[..last] + [jobs[last]];
    }
  }

  lemma CompleteJob(c: Setup, w: State, j: Job)
    ensures FinishesJob(w, UpdateJob(c, w.SetNew(j, COMPLETED), j, false), j)
  {
    SetNewSame(w, w, j, COMPLETED);
    UpdateFinishes(c, w, w.SetNew(j, COMPLETED), j, false);
  }

  /** The jobs listed so far whose COMPLETED file exists have finished. */
  lemma {:induction false} CompleteNamedFinishes(c: Setup, names: set<string>, w: State, jobs: seq<Job>)
    requires forall j :: j in jobs ==> j in w.step.jobs
    ensures var w' := CompleteNamed(c, names, w, jobs);
      && Frame(w, w', set j | j in jobs) && SameWrapper(w, w')
      && forall j :: j in jobs && j.name in names ==> Finished(w'.StatusOf(j))
  {
    if jobs != [] {
      var init, last := jobs[..|jobs|-1], jobs[|jobs|-1];
      assert jobs == init + [last];
      CompleteNamedFinishes(c, names, w, init);
      CompleteJob(c, CompleteNamed(c, names, w, init), last);
      hide UpdateJob, WithNewStatus;
    }
  }

  lemma {:induction false} FinishEachFinishes(c: Setup, w: State, jobs: seq<Job>)
    requires forall j :: j in jobs ==> j in w.step.jobs
    ensures var w' := FinishEach(c, w, jobs);
      Frame(w, w', set j | j in jobs) && SameWrapper(w, w') && AllFinished(w', jobs)
  {
    if jobs != [] {
      var init, last := jobs[..|jobs|-1], jobs[|jobs|-1];
      assert jobs == init + [last];
      FinishEachFinishes(c, w, init);
      CheckFinishedWorks(c, FinishEach(c, w, init), last, false);
      hide CheckFinished;
    }
  }

  lemma {:induction false} MissingExactly(names: set<string>, jobs: seq<Job>)
    ensures forall j :: j in Missing(names, jobs) ==> j in jobs
    ensures forall j :: j in jobs && j !in Missing(names, jobs) ==> j.name in names
  {
    if jobs != [] {
      MissingExactly(names, jobs[..|jobs|-1]);
      assert jobs == jobs[..|jobs|-1] + [jobs[|jobs|-1]];
    }
  }

  /** A job that was completed, or was found completed, or was finished, has finished. */
  lemma CompletedApart(c: Setup, names: set<string>, w: State, w1: State, w2: State, jobs: seq<Job>, missing: seq<Job>)
    requires Holds(c, w) && Frame(w, w1, set j | j in jobs) && Frame(w1, w2, set j | j in missing)
    requires forall j :: j in c.jobList && j !in jobs ==> w.StatusOf(j) == COMPLETED
    requires forall j :: j in jobs && j.name in names ==> Finished(w1.StatusOf(j))
    requires forall j :: j in jobs && j !in missing ==> j.name in names
    requires AllFinished(w2, missing) && forall j :: j in missing ==> j in jobs
    ensures AllFinished(w2, c.jobList)
  {
    forall j | j in c.jobList ensures Finished(w2.StatusOf(j)) {
      if j !in jobs { assert KeptOrFailed(w.StatusOf(j), w1.StatusOf(j)); }
      if j !in missing { assert KeptOrFailed(w1.StatusOf(j), w2.StatusOf(j)); }
    }
  }

  /** A wrapper found completed leaves every inner job COMPLETED or FAILED. */
  lemma CheckCompletedFinishes(c: Setup, w: State)
    requires Holds(c, w)
    ensures var w' := CheckCompleted(c, w); w'.step.jobs.Keys == w.step.jobs.Keys && AllFinished(w', c.jobList)
  {
    var jobs := NotCompleted(w, c.jobList);
    NotCompletedExactly(w, c.jobList);
    if jobs == [] {
      hide NotCompleted;
      forall j | j in c.jobList ensures w.StatusOf(j) == COMPLETED { assert j !in jobs; }
    } else {
      FoundFinishes(c, w, jobs);
    }
  }

  lemma FoundFinishes(c: Setup, w: State, jobs: seq<Job>)
    requires Holds(c, w) && jobs == NotCompleted(w, c.jobList) && jobs != []
    requires forall j :: j in jobs ==> j in c.jobList
    requires forall j :: j in c.jobList && j !in jobs ==> w.StatusOf(j) == COMPLETED
    ensures var w' := CheckCompleted(c, w); w'.step.jobs.Keys == w.step.jobs.Keys && AllFinished(w', c.jobList)
  {
    var names := c.a.completed(w.step.now);
    var w1 := CompleteNamed(c, names, w.Tick(), jobs);
    var found, missing := Found(names, jobs), Missing(names, jobs);
    var w2 := w1.(running := w1.running - Elements(found));
    CompleteNamedFinishes(c, names, w.Tick(), jobs);
    MissingExactly(names, jobs);
    FinishEachFinishes(c, w2, missing);
    hide NotCompleted, CompleteNamed, FinishEach, Found, Missing;
    CompletedApart(c, names, w, w2, FinishEach(c, w2, missing), jobs, missing);
  }

  // ---------------------------------------------------------------- failed wrappers

  lemma {:induction false} AnyFailureChangesNoJob(c: Setup, w: State, jobs: seq<Job>)
    ensures var w' := AnyFailure(c, w, jobs);
      && w'.step.jobs == w.step.jobs && w'.inner == w.inner && w'.status == w.status
    decreases |jobs|
  {
    if jobs != [] && !Yes(c, w) { AnyFailureChangesNoJob(c, w.Tick(), jobs[1..]); }
  }

  lemma ConfirmFailureChangesNoJob(c: Setup, w: State)
    ensures var w' := ConfirmFailure(c, w);
      w'.step.jobs == w.step.jobs && w'.inner == w.inner && w'.status == w.status
  {
    AnyFailureChangesNoJob(c, w.Tick(), w.inner);
    hide AnyFailure;
  }

  /** `Safe`, with the jobs that a state holds. */
  ghost predicate SafeAmong(c: Setup, w: State, jobs: set<Job>) {
    Safe(c, w) && w.step.jobs.Keys == jobs
  }

  lemma UpdateFailedWrapperSafe(c: Setup, w: State, jobs: set<Job>)
    requires SafeAmong(c, w, jobs) && w.status == FAILED
    ensures SafeAmong(c, UpdateFailedWrapper(c, w), jobs)
  {
    SafeApart(c, w, w.(failed := true));
    UpdateFailedSafe(c, w, true);
    CheckRunningSafe(c, w.(failed := true));
    hide UpdateFailed, CheckRunning, Safe;
  }

  lemma ConfirmedSafe(c: Setup, w: State, jobs: set<Job>)
    requires SafeAmong(c, w, jobs) && forall j :: j in c.jobList ==> j in jobs
    ensures SafeAmong(c, Confirmed(c, w), jobs)
  {
    UpdateFailedSafe(c, w, false);
    CancelSafe(c, UpdateFailed(c, w, false));
    hide UpdateFailed, Cancel, Safe;
  }

  /** Everything that the last part of `check_status` can lead to is safe. */
  lemma CheckFailedSafe(c: Setup, w: State, jobs: set<Job>)
    requires SafeAmong(c, w, jobs) && forall j :: j in c.jobList ==> j in jobs
    ensures SafeAmong(c, CheckFailed(c, w), jobs)
  {
    var w1 := UpdateFailedWrapper(c, w.(status := FAILED));
    SafeApart(c, w, w.(status := FAILED));
    UpdateFailedWrapperSafe(c, w.(status := FAILED), jobs);
    CancelSafe(c, w1);
    ConfirmFailureChangesNoJob(c, w1);
    SafeApart(c, w1, ConfirmFailure(c, w1));
    ConfirmedSafe(c, ConfirmFailure(c, w1), jobs);
    hide UpdateFailedWrapper, ConfirmFailure, Confirmed, Cancel, Safe;
  }

  // ---------------------------------------------------------------- whole runs

  lemma CheckAliveSafe(c: Setup, w: State, status: Status)
    requires Safe(c, w) && Holds(c, w)
    ensures Safe(c, CheckAlive(c, w, status)) && CheckAlive(c, w, status).step.jobs.Keys == w.step.jobs.Keys
  {
    var w0 := w.(prevStatus := w.status, status := status);
    SafeApart(c, w, w0);
    match status {
      case HELD => CheckQueueSafe(c, w0, w.status);
      case QUEUING => CheckQueueSafe(c, w0, w.status);
      case RUNNING =>
        SetAllSets(w0, c.jobList, QUEUING);
        var w1 := if w.status == SUBMITTED then SetAll(w0, c.jobList, QUEUING) else w0;
        hide SetAll;
        if w.status == SUBMITTED { NoneRunningIsSafe(c, w1); }
        CheckRunningSafe(c, w1);
      case COMPLETED =>
        CheckRunningPolls(c, w0);
        CheckCompletedFinishes(c, CheckRunning(c, w0));
        hide CheckRunning, CheckCompleted;
        NoneRunningIsSafe(c, CheckCompleted(c, CheckRunning(c, w0)));
      case _ =>
    }
  }

  lemma CheckStatusSafe(c: Setup, w: State, status: Status)
    requires Safe(c, w) && Holds(c, w)
    ensures Safe(c, CheckStatus(c, w, status)) && Holds(c, CheckStatus(c, w, status))
  {
    CheckAliveSafe(c, w, status);
    hide CheckAlive, CheckFailed;
    CheckFailedSafe(c, CheckAlive(c, w, status), w.step.jobs.Keys);
    hide Safe;
  }

  /** Dependency safety over whole runs: from a state without a running inner job, after any
      checks and whatever the platform answers, a running inner job has all its parents
      completed. */
  lemma {:induction false} RunIsSafe(c: Setup, w: State, statuses: seq<Status>)
    requires Holds(c, w) && NoneRunning(w, c.jobList)
    ensures var w' := Run(c, w, statuses);
      && Safe(c, w') && Holds(c, w')
      && forall j, p :: j in c.jobList && p in c.g.Parents(j) && w'.StatusOf(j) == RUNNING ==>
        w'.StatusOf(p) == COMPLETED
  {
    if statuses == [] {
      NoneRunningIsSafe(c, w);
    } else {
      RunIsSafe(c, w, statuses[..|statuses|-1]);
      CheckStatusSafe(c, Run(c, w, statuses[..|statuses|-1]), statuses[|statuses|-1]);
    }
    hide Run;
    var w' := Run(c, w, statuses);
    forall j, p | j in c.jobList && p in c.g.Parents(j) && w'.StatusOf(j) == RUNNING
      ensures w'.StatusOf(p) == COMPLETED {
      assert SafeJob(c, w', j);
    }
  }

  // ---------------------------------------------------------------- final statuses

  lemma PollLeavesFinished(c: Setup, w: State)
    requires Holds(c, w) && AllFinished(w, c.jobList)
    ensures AllFinished(CheckRunning(c, w), c.jobList) && CheckRunning(c, w).step.jobs.Keys == w.step.jobs.Keys
  {
    CheckRunningPolls(c, w);
    PollablesExactly(c, w, c.jobList);
    hide CheckRunning, Pollables;
  }

  lemma FailuresLeaveFinished(c: Setup, w: State, b: bool)
    requires Holds(c, w) && AllFinished(w, c.jobList)
    ensures AllFinished(UpdateFailed(c, w, b), c.jobList) && UpdateFailed(c, w, b).step.jobs.Keys == w.step.jobs.Keys
  {
    UpdateFailedUpdates(c, w, b);
    hide UpdateFailed, Suspects;
  }

  lemma FinishedStaysFinished(c: Setup, w: State)
    requires Holds(c, w) && AllFinished(w, c.jobList)
    ensures AllFinished(CheckRunning(c, w), c.jobList) && CheckRunning(c, w).step.jobs.Keys == w.step.jobs.Keys
    ensures forall b ::
      AllFinished(UpdateFailed(c, w, b), c.jobList) && UpdateFailed(c, w, b).step.jobs.Keys == w.step.jobs.Keys
    ensures AllFinished(Cancel(c, w), c.jobList) && Cancel(c, w).step.jobs.Keys == w.step.jobs.Keys
  {
    PollLeavesFinished(c, w);
    CancelLeavesFinalOrWaiting(c, w);
    hide CheckRunning, UpdateFailed, Cancel;
    forall b
      ensures AllFinished(UpdateFailed(c, w, b), c.jobList) && UpdateFailed(c, w, b).step.jobs.Keys == w.step.jobs.Keys
    {
      FailuresLeaveFinished(c, w, b);
    }
  }

  /** The jobs of the state, all the inner ones finished. */
  ghost predicate FinishedAmong(c: Setup, w: State, jobs: set<Job>) {
    AllFinished(w, c.jobList) && w.step.jobs.Keys == jobs
  }

  lemma UpdateFailedWrapperFinished(c: Setup, w: State, jobs: set<Job>)
    requires FinishedAmong(c, w, jobs) && Holds(c, w)
    ensures FinishedAmong(c, UpdateFailedWrapper(c, w), jobs)
  {
    FinishedStaysFinished(c, w);
    FinishedStaysFinished(c, w.(failed := true));
    hide UpdateFailed, CheckRunning, Cancel;
  }

  lemma ConfirmedFinished(c: Setup, w: State, jobs: set<Job>)
    requires FinishedAmong(c, w, jobs) && Holds(c, w)
    ensures FinishedAmong(c, Confirmed(c, w), jobs)
  {
    FinishedStaysFinished(c, w);
    FinishedStaysFinished(c, UpdateFailed(c, w, false));
    hide UpdateFailed, CheckRunning, Cancel;
  }

  lemma CheckFailedFinished(c: Setup, w: State)
    requires Holds(c, w) && AllFinished(w, c.jobList)
    ensures AllFinished(CheckFailed(c, w), c.jobList)
  {
    var jobs, w1 := w.step.jobs.Keys, UpdateFailedWrapper(c, w.(status := FAILED));
    UpdateFailedWrapperFinished(c, w.(status := FAILED), jobs);
    FinishedStaysFinished(c, w1);
    ConfirmFailureChangesNoJob(c, w1);
    ConfirmedFinished(c, ConfirmFailure(c, w1), jobs);
    hide UpdateFailedWrapper, ConfirmFailure, Confirmed, Cancel, UpdateFailed, CheckRunning;
  }

  /** When a wrapper is checked as COMPLETED, every inner job ends COMPLETED or FAILED. */
  lemma CompletedWrapperFinishesJobs(c: Setup, w: State)
    requires Holds(c, w)
    ensures AllFinished(CheckStatus(c, w, COMPLETED), c.jobList)
  {
    var w0 := w.(prevStatus := w.status, status := COMPLETED);
    CheckRunningPolls(c, w0);
    CheckCompletedFinishes(c, CheckRunning(c, w0));
    hide CheckRunning, CheckCompleted, CheckFailed;
    CheckFailedFinished(c, CheckAlive(c, w, COMPLETED));
  }

  // ---------------------------------------------------------------- what each check decides

  /** `update_status` of a job to be completed: a second look decides, and only a file that was
      seen and is gone fails the descendants. */
  lemma UpdateToCompleted(c: Setup, w: State, j: Job)
    requires j in w.step.jobs && w.step.jobs[j].newStatus == COMPLETED
    ensures var w' := UpdateJob(c, w, j, false);
      && w'.StatusOf(j) == (if Yes(c, w) then COMPLETED else FAILED)
      && (Yes(c, w) ==> forall k :: k in w.step.jobs && k != j ==> w'.StatusOf(k) == w.StatusOf(k))
  {
    if !Yes(c, w) {
      UpdateJobWorks(c, w, j, false);
      var s1 := Renewed(c.a, w.step.(jobs := WithPrevStatus(w.step.jobs, j)), j);
      PropagateKeeps(c.g, s1.jobs, j);
    }
    hide Propagate;
  }

  lemma UpdateToFailed(c: Setup, w: State, j: Job)
    requires j in w.step.jobs && w.step.jobs[j].newStatus == FAILED
    ensures var w' := UpdateJob(c, w, j, true);
      w'.StatusOf(j) == FAILED && forall k :: k in w.step.jobs && k != j ==> w'.StatusOf(k) == w.StatusOf(k)
  {}

  /** Whether one of two looks finds the COMPLETED file, and whether a look after that does. */
  ghost predicate SeenTwice(c: Setup, w: State) {
    if Yes(c, w) then Yes(c, w.Tick()) else Yes(c, w.Tick()) && Yes(c, w.Tick().Tick())
  }

  /** A finished job is COMPLETED exactly when its COMPLETED file is seen twice, and the other
      jobs are left alone unless it was seen once and is gone. */
  lemma CheckFinishedDecides(c: Setup, w: State, j: Job, failedFile: bool)
    requires j in w.step.jobs
    ensures var w' := CheckFinished(c, w, j, failedFile);
      && w'.StatusOf(j) == (if !failedFile && SeenTwice(c, w) then COMPLETED else FAILED)
      && (failedFile || SeenTwice(c, w) || !(Yes(c, w) || Yes(c, w.Tick())) ==>
          forall k :: k in w.step.jobs && k != j ==> w'.StatusOf(k) == w.StatusOf(k))
  {
    var w0 := w.SetNew(j, FAILED);
    if failedFile {
      UpdateToFailed(c, w0, j);
    } else if Yes(c, w0) {
      UpdateToCompleted(c, w0.Tick().SetNew(j, COMPLETED), j);
    } else if Yes(c, w0.Tick()) {
      UpdateToCompleted(c, w0.Tick().Tick().SetNew(j, COMPLETED), j);
    } else {
      UpdateToFailed(c, w0.Tick().Tick(), j);
    }
    hide UpdateJob;
  }

  ghost predicate FinalOrWaiting(w: State, jobs: seq<Job>) {
    forall j :: j in jobs ==> w.StatusOf(j) == COMPLETED || w.StatusOf(j) == FAILED || w.StatusOf(j) == WAITING
  }

  lemma CancelSettles(c: Setup, w: State)
    requires Holds(c, w)
    ensures FinalOrWaiting(Cancel(c, w), c.jobList)
  {
    CancelLeavesFinalOrWaiting(c, w);
    hide Cancel;
  }

  lemma UpdateFailedKeeps(c: Setup, w: State, b: bool)
    ensures var w' := UpdateFailed(c, w, b); w'.step.jobs.Keys == w.step.jobs.Keys && w'.inner == []
  {
    UpdateFailedUpdates(c, w, b);
    hide UpdateFailed, Suspects;
  }

  lemma UpdateFailedWrapperKeeps(c: Setup, w: State)
    ensures UpdateFailedWrapper(c, w).step.jobs.Keys == w.step.jobs.Keys
  {
    UpdateFailedKeeps(c, w, true);
    CheckRunningPolls(c, w.(failed := true));
    hide UpdateFailed, CheckRunning, Pollables;
  }

  /** A failed wrapper is cancelled, and leaves no job running or queued, unless it follows jobs
      and their failure is not confirmed. */
  lemma FailedWrapperSettles(c: Setup, w: State)
    requires Holds(c, w)
    ensures var w' := CheckFailed(c, w); FinalOrWaiting(w', c.jobList) || (!w'.failed && w'.inner != [])
  {
    hide UpdateFailedWrapper, ConfirmFailure, UpdateFailed, Cancel, FinalOrWaiting;
    var w1 := UpdateFailedWrapper(c, w.(status := FAILED));
    UpdateFailedWrapperKeeps(c, w.(status := FAILED));
    CancelSettles(c, w1);
    ConfirmFailureChangesNoJob(c, w1);
    var w2 := ConfirmFailure(c, w1);
    UpdateFailedKeeps(c, w2, false);
    CancelSettles(c, UpdateFailed(c, w2, false));
  }

  lemma HeldWrapperKeeps(c: Setup, w: State)
    requires Holds(c, w)
    ensures HeldWrapper(c, w).step.jobs.Keys == w.step.jobs.Keys
  {
    ReleaseStopsAll(c, w.Tick().(newStatus := QUEUING), c.jobList);
    hide Release;
  }

  /** A wrapper whose status changes while it waits takes its jobs along, unless it is
      cancelled. */
  lemma WaitingWrapperLeads(c: Setup, w: State, prev: Status)
    requires Holds(c, w) && !(c.slurm && c.a.reason(w.step.now) == Cancelling)
    ensures var w' := CheckQueue(c, w, prev);
      prev != w'.status ==> forall j :: j in c.jobList ==> w'.StatusOf(j) == w'.status
  {
    hide FollowWrapper, HeldWrapper;
    HeldWrapperKeeps(c, w);
    FollowSets(HeldWrapper(c, w), c.jobList);
  }
}

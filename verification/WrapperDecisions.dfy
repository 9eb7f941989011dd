/** What the steps of a wrapper decide, in statuses of jobs and answers of the platform: which question
    is asked when, and what becomes of every job. */
module WrapperDecisions {
  import opened Sequences
  import opened Jobs
  import opened WrapperSteps
  import opened WrapperSafety

  // ---------------------------------------------------------------- finishing one job

  /** Looking for a COMPLETED file from question `t` on: up to two looks, and another one when it has
      been found. */
  function LooksAt(a: Answers, t: nat): nat { if a.yes(t) then 2 else if a.yes(t + 1) then 3 else 2 }

  predicate SeenAt(a: Answers, t: nat) { if a.yes(t) then a.yes(t + 1) else a.yes(t + 1) && a.yes(t + 2) }

  /** It has been found and is gone at the last look. */
  predicate GoneAt(a: Answers, t: nat) { !SeenAt(a, t) && (a.yes(t) || a.yes(t + 1)) }

  /** The state of `j` is `state` now. The others are as they were, but that what is downstream of it has
      failed, if `spread`. */
  ghost predicate Becomes(g: Graph, st: Snapshot, st': Snapshot, j: Job, state: JobState, spread: bool)
    requires j in st
  {
    && st'.Keys == st.Keys && st'[j] == state
    && forall k :: k in st && k != j ==>
      st'[k] == if spread && Downstream(g, st, j, k) then st[k].(status := FAILED) else st[k]
  }

  lemma UpdateBecomes(c: Setup, w: State, j: Job, failedFile: bool)
    requires j in w.step.jobs
    ensures var w', before := UpdateJob(c, w, j, failedFile), w.step.jobs[j];
      var status := Decided(before.newStatus, c.a.yes(w.step.now));
      && w' == w.(step := w'.step)
      && w'.step.now == w.step.now + (if before.newStatus == COMPLETED || before.newStatus == UNKNOWN then 1 else 0)
      && Becomes(c.g, w.step.jobs, w'.step.jobs, j, before.(status := status, prevStatus := before.status),
                 status == FAILED && !failedFile)
  {
    UpdateDecides(c.g, c.a, w.step, j, failedFile);
    hide Updated, Downstream, Decided;
  }

  /** The same, for a job that is given its new status just before. */
  lemma UpdateToBecomes(c: Setup, w: State, j: Job, news: Status, failedFile: bool)
    requires j in w.step.jobs
    ensures var w', before := UpdateJob(c, w.SetNew(j, news), j, failedFile), w.step.jobs[j];
      var status := Decided(news, c.a.yes(w.step.now));
      && w' == w.(step := w'.step)
      && w'.step.now == w.step.now + (if news == COMPLETED || news == UNKNOWN then 1 else 0)
      && Becomes(c.g, w.step.jobs, w'.step.jobs, j,
                 before.(status := status, prevStatus := before.status, newStatus := news),
                 status == FAILED && !failedFile)
  {
    var v := w.SetNew(j, news);
    var before := w.step.jobs[j];
    assert v.step.jobs == w.step.jobs[j := before.(newStatus := news)];
    var w' := UpdateJob(c, v, j, failedFile);
    assert v.step.now == w.step.now && v.(step := w'.step) == w.(step := w'.step);
    UpdateBecomes(c, v, j, failedFile);
    hide *;
    var status := Decided(news, c.a.yes(w.step.now));
    BecomesFromNew(c.g, w.step.jobs, v.step.jobs, w'.step.jobs, j, news,
      before.(status := status, prevStatus := before.status, newStatus := news), status == FAILED && !failedFile);
  }

  /** The status to come of the job does not matter. */
  lemma BecomesFromNew(g: Graph, st: Snapshot, mid: Snapshot, st': Snapshot, j: Job, news: Status, state: JobState,
                       spread: bool)
    requires j in st && mid == st[j := st[j].(newStatus := news)] && Becomes(g, mid, st', j, state, spread)
    ensures Becomes(g, st, st', j, state, spread)
  {
    hide Downstream;
    forall k | k in st && k != j ensures Downstream(g, mid, j, k) <==> Downstream(g, st, j, k) {
      DownstreamWhatever(g, st, j, st[j].(newStatus := news), k);
    }
  }

  /** Finishing a job: it is COMPLETED exactly if there is no failure file and its COMPLETED file is seen
      twice, and no longer followed. What is downstream fails exactly if that file was there and is
      gone. */
  lemma FinishDecides(c: Setup, w: State, j: Job, failedFile: bool)
    requires j in w.step.jobs
    ensures var w', before, t := CheckFinished(c, w, j, failedFile), w.step.jobs[j], w.step.now;
      var claimed := !failedFile && (c.a.yes(t) || c.a.yes(t + 1));
      && w' == w.(step := w'.step, running := w.running - {j})
      && w'.step.now == (if failedFile then t else t + LooksAt(c.a, t))
      && Becomes(c.g, w.step.jobs, w'.step.jobs, j,
                 before.(status := if !failedFile && SeenAt(c.a, t) then COMPLETED else FAILED,
                         prevStatus := before.status, newStatus := if claimed then COMPLETED else FAILED),
                 !failedFile && GoneAt(c.a, t))
  {
    hide UpdateJob, Becomes, WithNewStatus, SeenAt, GoneAt;
    var w2 := w.Tick().Tick();
    UpdateToBecomes(c, w, j, FAILED, true);
    UpdateToBecomes(c, w.Tick(), j, COMPLETED, false);
    UpdateToBecomes(c, w2, j, COMPLETED, false);
    UpdateToBecomes(c, w2, j, FAILED, true);
    SetNewLast(w, j);
    Seen(c.a, w.step.now);
  }

  lemma FinishMeans(c: Setup, w: State, j: Job, failedFile: bool)
    requires j in w.step.jobs
    ensures var w' := CheckFinished(c, w, j, failedFile);
      && w' == w.(step := w'.step, running := w.running - {j}) && j in w'.step.jobs
      && w'.step.now == (if failedFile then w.step.now else w.step.now + LooksAt(c.a, w.step.now))
      && w'.StatusOf(j) == (if !failedFile && SeenAt(c.a, w.step.now) then COMPLETED else FAILED)
      && Becomes(c.g, w.step.jobs, w'.step.jobs, j, w'.step.jobs[j], !failedFile && GoneAt(c.a, w.step.now))
  {
    FinishDecides(c, w, j, failedFile);
    hide CheckFinished, SeenAt, GoneAt, LooksAt, Downstream;
  }

  lemma SetNewLast(w: State, j: Job)
    ensures var w0, w2 := w.SetNew(j, FAILED), w.Tick().Tick();
      && w0.Tick().SetNew(j, COMPLETED) == w.Tick().SetNew(j, COMPLETED) && w0.Tick().Tick() == w2.SetNew(j, FAILED)
      && w0.Tick().Tick().SetNew(j, COMPLETED) == w2.SetNew(j, COMPLETED)
  {}

  lemma Seen(a: Answers, t: nat)
    ensures SeenAt(a, t) == (if a.yes(t) then a.yes(t + 1) else a.yes(t + 1) && a.yes(t + 2))
    ensures GoneAt(a, t) == (if a.yes(t) then !a.yes(t + 1) else a.yes(t + 1) && !a.yes(t + 2))
  {}

  // ---------------------------------------------------------------- a line of the poll

  /** A line with a start time for a job that was not followed yet. */
  lemma StartDecides(c: Setup, w: State, j: Job, line: PollLine)
    requires j in w.step.jobs
    ensures var w', before := StartJob(c, w, j, line), w.step.jobs[j];
      if line.fields > 1 && j !in w.running then
        && w' == w.(step := w'.step, running := w.running[j := line.start]) && w'.step.now == w.step.now
        && Becomes(c.g, w.step.jobs, w'.step.jobs, j,
                   before.(status := RUNNING, prevStatus := before.status, newStatus := RUNNING), false)
      else w' == w
  {
    UpdateToBecomes(c, w.(running := w.running[j := line.start]), j, RUNNING, false);
    hide UpdateJob, Becomes, WithNewStatus;
  }

  /** The status that a line leaves its job in, if `t` is the next question: a job that has just a start
      time is running, or late; one that has an end as well has finished. */
  ghost function StatusAfter(a: Answers, t: nat, before: Status, known: bool, vertical: bool, fields: nat): Status {
    if fields == 3 then (if SeenAt(a, t) then COMPLETED else FAILED)
    else if fields == 2 && a.yes(t) && !vertical then FAILED
    else if fields > 1 && !known then RUNNING
    else before
  }

  /** What one line of the poll does to its job, to the jobs that are followed and to the clock. The
      other jobs stay, but for those downstream of a job whose COMPLETED file was there and is gone. */
  ghost predicate LineDone(c: Setup, w: State, over: bool, j: Job, line: PollLine, w': State, over': bool)
    requires j in w.step.jobs
  {
    var t := w.step.now;
    && w' == w.(step := w'.step, running := w'.running) && w'.step.jobs.Keys == w.step.jobs.Keys
    && w'.StatusOf(j) == StatusAfter(c.a, t, w.StatusOf(j), j in w.running, j.vertical, line.fields)
    && w'.running == (if line.fields == 3 then w.running - {j}
                      else if line.fields > 1 && j !in w.running then w.running[j := line.start] else w.running)
    && w'.step.now == t + (if line.fields == 2 then 1 else if line.fields == 3 then LooksAt(c.a, t) else 0)
    && over' == (if line.fields == 2 then c.a.yes(t) else over)
    && forall k :: k in w.step.jobs && k != j ==>
      w'.step.jobs[k] == if line.fields == 3 && GoneAt(c.a, t) && Downstream(c.g, w.step.jobs, j, k)
                         then w.step.jobs[k].(status := FAILED) else w.step.jobs[k]
  }

  lemma LineDecides(c: Setup, names: map<string, Job>, w: State, over: bool, line: PollLine)
    requires line.fields > 0 && line.name in names && names[line.name] in w.step.jobs
    ensures var (w', over') := ReadLine(c, names, w, over, line);
      LineDone(c, w, over, names[line.name], line, w', over')
  {
    var j := names[line.name];
    if line.fields == 3 {
      EndDecides(c, w, over, j, line);
    } else {
      NoEndDecides(c, w, over, j, line);
    }
    hide LineDone, EndLine, StartJob;
  }

  lemma NoEndDecides(c: Setup, w: State, over: bool, j: Job, line: PollLine)
    requires j in w.step.jobs && line.fields != 3
    ensures var (w', over') := EndLine(c, StartJob(c, w, j, line), j, over, line.fields);
      LineDone(c, w, over, j, line, w', over')
  {
    StartDecides(c, w, j, line);
    hide StartJob, CheckFinished, Downstream, SeenAt, GoneAt, LooksAt;
  }

  lemma EndDecides(c: Setup, w: State, over: bool, j: Job, line: PollLine)
    requires j in w.step.jobs && line.fields == 3
    ensures var (w', over') := EndLine(c, StartJob(c, w, j, line), j, over, line.fields);
      LineDone(c, w, over, j, line, w', over')
  {
    hide StartJob, CheckFinished, Becomes, SeenAt, GoneAt, LooksAt, Downstream;
    var v := StartJob(c, w, j, line);
    StartBecomes(c, w, j, line);
    FinishMeans(c, v, j, false);
    var w' := CheckFinished(c, v, j, false);
    BecomesTwice(c.g, w.step.jobs, v.step.jobs, w'.step.jobs, j, w'.step.jobs[j], GoneAt(c.a, w.step.now));
    assert w'.running == w.running - {j};
  }

  lemma StartBecomes(c: Setup, w: State, j: Job, line: PollLine)
    requires j in w.step.jobs
    ensures var v := StartJob(c, w, j, line);
      && v == w.(step := v.step, running := v.running) && v.step.now == w.step.now && v.running - {j} == w.running - {j}
      && j in v.step.jobs && Becomes(c.g, w.step.jobs, v.step.jobs, j, v.step.jobs[j], false)
  {
    StartDecides(c, w, j, line);
    hide StartJob;
  }

  lemma BecomesTwice(g: Graph, st: Snapshot, st1: Snapshot, st2: Snapshot, j: Job, state: JobState, spread: bool)
    requires j in st && j in st1 && Becomes(g, st, st1, j, st1[j], false) && Becomes(g, st1, st2, j, state, spread)
    ensures st2.Keys == st.Keys && j in st2 && st2[j] == state
    ensures forall k :: k in st && k != j ==>
      st2[k] == if spread && Downstream(g, st, j, k) then st[k].(status := FAILED) else st[k]
  {
    assert st1 == st[j := st1[j]];
    forall k | k in st && k != j ensures Downstream(g, st1, j, k) <==> Downstream(g, st, j, k) {
      DownstreamWhatever(g, st, j, st1[j], k);
    }
    hide Downstream;
  }

  // ---------------------------------------------------------------- a poll

  /** A job is followed when it has not finished and its parents have completed, or the whole wrapper
      has. */
  ghost predicate Followable(c: Setup, w: State, j: Job) {
    && w.StatusOf(j) != COMPLETED && w.StatusOf(j) != FAILED
    && (w.status == COMPLETED || forall p :: p in c.g.Parents(j) ==> w.StatusOf(p) == COMPLETED)
  }

  ghost function Following(c: Setup, w: State, jobs: seq<Job>): (r: seq<bool>)
    ensures |r| == |jobs|
  {
    seq(|jobs|, i requires 0 <= i < |jobs| => Followable(c, w, jobs[i]))
  }

  lemma {:induction false} PollablesAreFollowable(c: Setup, w: State, jobs: seq<Job>)
    ensures Pollables(c, w, jobs) == Picked(jobs, Following(c, w, jobs))
  {
    var pick := Following(c, w, jobs);
    if jobs != [] {
      var n := |jobs| - 1;
      PollablesAreFollowable(c, w, jobs[..n]);
      PickedLast(jobs, pick);
      assert pick[..n] == Following(c, w, jobs[..n]);
    }
  }

  lemma FollowedExactly(c: Setup, w: State)
    ensures forall j :: j in Pollables(c, w, c.jobList) <==> j in c.jobList && Followable(c, w, j)
  {
    PollablesExactly(c, w, c.jobList);
    hide Pollables;
  }

  /** The next question after some lines: one for each job that is running, two or three for each that has
      finished. Lines that name no followed job are skipped. */
  ghost function ClockAfter(a: Answers, names: set<string>, lines: seq<PollLine>, start: nat): nat {
    if lines == [] then start
    else
      var t, last := ClockAfter(a, names, lines[..|lines|-1], start), lines[|lines|-1];
      if last.name !in names then t
      else if last.fields == 2 then t + 1
      else if last.fields == 3 then t + LooksAt(a, t)
      else t
  }

  /** Whether the last running job of the lines is late. */
  ghost function LateAfter(a: Answers, names: set<string>, lines: seq<PollLine>, start: nat): bool {
    if lines == [] then false
    else
      var last := lines[|lines|-1];
      if last.name in names && last.fields == 2 then a.yes(ClockAfter(a, names, lines[..|lines|-1], start))
      else LateAfter(a, names, lines[..|lines|-1], start)
  }

  lemma ReadLineSteps(c: Setup, names: map<string, Job>, w: State, over: bool, line: PollLine)
    requires forall n :: n in names ==> names[n] in w.step.jobs
    ensures var (w', over') := ReadLine(c, names, w, over, line);
      && w'.step.jobs.Keys == w.step.jobs.Keys
      && w'.step.now == w.step.now + (if line.name !in names then 0 else if line.fields == 2 then 1
                                      else if line.fields == 3 then LooksAt(c.a, w.step.now) else 0)
      && over' == if line.name in names && line.fields == 2 then c.a.yes(w.step.now) else over
  {
    if line.fields > 0 && line.name in names { LineDecides(c, names, w, over, line); }
    hide StartJob, EndLine, Downstream, LooksAt;
  }

  lemma {:induction false} ReadLinesSteps(c: Setup, names: map<string, Job>, w: State, lines: seq<PollLine>)
    requires forall n :: n in names ==> names[n] in w.step.jobs
    ensures var (w', over) := ReadLines(c, names, w, lines);
      && w'.step.jobs.Keys == w.step.jobs.Keys
      && w'.step.now == ClockAfter(c.a, names.Keys, lines, w.step.now)
      && over == LateAfter(c.a, names.Keys, lines, w.step.now)
  {
    if lines != [] {
      var (before, over) := ReadLines(c, names, w, lines[..|lines|-1]);
      ReadLinesSteps(c, names, w, lines[..|lines|-1]);
      ReadLineSteps(c, names, before, over, lines[|lines|-1]);
      hide ReadLine, LooksAt;
    }
  }

  /** Children know their parents. */
  ghost predicate TwoWays(g: Graph, j: Job) { forall m :: m in g.children && j in g.children[m] ==> m in g.Parents(j) }

  /** The parents of `j` have completed, so no failure spreads to it, and none is among the polled jobs. */
  ghost predicate Sheltered(c: Setup, w: State, names: map<string, Job>, j: Job) {
    && TwoWays(c.g, j) && j in w.step.jobs && (forall n :: n in names ==> names[n] in w.step.jobs)
    && (forall p :: p in c.g.Parents(j) ==> w.StatusOf(p) == COMPLETED)
    && forall n :: n in names ==> names[n] !in c.g.Parents(j)
  }

  lemma NotDownstream(c: Setup, w: State, names: map<string, Job>, j: Job, q: Job, k: Job)
    requires Sheltered(c, w, names, j) && q !in c.g.Parents(j) && (k == j || k in c.g.Parents(j))
    ensures !Downstream(c.g, w.step.jobs, q, k)
  {
    if p :| Chain(c.g, w.step.jobs, q, p) && p[|p|-1] == k { ChainEnds(c.g, w.step.jobs, q, p); }
  }

  lemma ChainEnds(g: Graph, st: Snapshot, q: Job, p: seq<Job>)
    requires Chain(g, st, q, p)
    ensures var k, m := p[|p|-1], if |p| == 1 then q else p[|p|-2];
      && m in g.children && k in g.children[m] && k in st && st[k].status != COMPLETED
      && (|p| > 1 ==> m in st && st[m].status != COMPLETED)
  {
    assert |p| > 1 ==> p[|p|-2+1] in g.Children(p[|p|-2]);
  }

  lemma OtherLine(c: Setup, names: map<string, Job>, w: State, over: bool, line: PollLine, j: Job)
    requires Sheltered(c, w, names, j)
    requires line.fields > 0 && line.name in names ==> names[line.name] != j
    ensures var w' := ReadLine(c, names, w, over, line).0;
      && Sheltered(c, w', names, j) && w'.step.jobs[j] == w.step.jobs[j]
      && (j in w'.running <==> j in w.running) && (j in w.running ==> w'.running[j] == w.running[j])
      && w'.StatusOf(j) == w.StatusOf(j)
  {
    if line.fields > 0 && line.name in names {
      var q := names[line.name];
      LineDecides(c, names, w, over, line);
      NotDownstream(c, w, names, j, q, j);
      forall p | p in c.g.Parents(j) ensures !Downstream(c.g, w.step.jobs, q, p) {
        NotDownstream(c, w, names, j, q, p);
      }
      hide ReadLine, Downstream, TwoWays, StatusAfter, LooksAt, GoneAt;
    }
  }

  /** Lines that are not the job's own leave it alone. */
  lemma {:induction false} OtherLines(c: Setup, names: map<string, Job>, w: State, lines: seq<PollLine>, k: nat, j: Job)
    requires k <= |lines| && Sheltered(c, ReadLines(c, names, w, lines[..k]).0, names, j)
    requires forall i :: k <= i < |lines| && lines[i].fields > 0 && lines[i].name in names ==> names[lines[i].name] != j
    ensures var (v, w') := (ReadLines(c, names, w, lines[..k]).0, ReadLines(c, names, w, lines).0);
      && Sheltered(c, w', names, j) && w'.step.jobs[j] == v.step.jobs[j]
      && (j in w'.running <==> j in v.running) && (j in v.running ==> w'.running[j] == v.running[j])
      && w'.StatusOf(j) == v.StatusOf(j)
    decreases |lines|
  {
    var n := |lines| - 1;
    hide ReadLine, Sheltered;
    if k == |lines| {
      assert lines[..k] == lines;
    } else {
      assert lines[..n][..k] == lines[..k];
      OtherLines(c, names, w, lines[..n], k, j);
      var (before, over) := ReadLines(c, names, w, lines[..n]);
      OtherLine(c, names, before, over, lines[n], j);
    }
  }

  ghost function FollowedNames(c: Setup, w: State): set<string> {
    set j | j in c.jobList && Followable(c, w, j) :: j.name
  }

  lemma {:induction false} NamedExactly(jobs: seq<Job>)
    ensures forall n :: n in Named(jobs) <==> exists j :: j in jobs && j.name == n
    ensures forall n :: n in Named(jobs) ==> Named(jobs)[n] in jobs && Named(jobs)[n].name == n
  {
    if jobs != [] {
      var init, last := jobs[..|jobs|-1], jobs[|jobs|-1];
      NamedExactly(init);
      assert jobs == init + [last];
      forall n ensures n in Named(jobs) <==> exists j :: j in jobs && j.name == n {
        if n in Named(init) { var j :| j in init && j.name == n; assert j in jobs; }
        if n == last.name { assert last in jobs; }
      }
    }
  }

  /** The jobs that a poll goes through, by name. */
  lemma PolledNames(c: Setup, w: State)
    requires Holds(c, w)
    ensures var names := Named(Pollables(c, w, c.jobList));
      && names.Keys == FollowedNames(c, w)
      && forall n :: n in names ==> Followable(c, w, names[n]) && names[n].name == n && names[n] in c.jobList
  {
    NamedExactly(Pollables(c, w, c.jobList));
    FollowedExactly(c, w);
    hide Pollables, Followable, Named;
    var polled := Pollables(c, w, c.jobList);
    forall n ensures n in Named(polled) <==> n in FollowedNames(c, w) {
      if n in Named(polled) { assert Named(polled)[n] in polled; }
      if j :| j in c.jobList && Followable(c, w, j) && j.name == n { assert j in polled; }
    }
    forall n | n in Named(polled)
      ensures Followable(c, w, Named(polled)[n]) && Named(polled)[n].name == n && Named(polled)[n] in c.jobList
    {
      assert Named(polled)[n] in polled;
    }
  }

  /** Which jobs a poll follows, what it makes of the wrapper, and how many questions it asks. */
  lemma PollOutcome(c: Setup, w: State)
    requires Holds(c, w)
    ensures var w', names, lines := CheckRunning(c, w), FollowedNames(c, w), c.a.poll(w.step.now);
      && w'.inner == Picked(c.jobList, Following(c, w, c.jobList))
      && w'.status == (if names != {} && LateAfter(c.a, names, lines, w.step.now + 1) then FAILED else w.status)
      && w'.step.now == if names == {} then w.step.now else ClockAfter(c.a, names, lines, w.step.now + 1)
  {
    hide Pollables, Named, FollowedNames, ReadLines, ClockAfter, LateAfter, Followable, Following, Picked, Downstream;
    var polled := Pollables(c, w, c.jobList);
    var w0 := w.(inner := polled);
    PollablesAreFollowable(c, w, c.jobList);
    PolledNames(c, w);
    NamedNone(polled);
    NamedExactly(polled);
    ReadLinesSteps(c, Named(polled), w0.Tick(), c.a.poll(w.step.now));
    ReadLinesFrame(c, Named(polled), w0.Tick(), c.a.poll(w.step.now), set j | j in polled);
  }

  lemma NamedNone(jobs: seq<Job>)
    ensures Named(jobs) == map[] <==> jobs == []
  {
    NamedExactly(jobs);
    if jobs != [] { assert jobs[0] in jobs && jobs[0].name in Named(jobs); }
  }

  /** No other followed job has the name of `j`. */
  ghost predicate OnlyName(c: Setup, w: State, j: Job) {
    && j in c.jobList && Followable(c, w, j)
    && forall i :: i in c.jobList && Followable(c, w, i) && i.name == j.name ==> i == j
  }

  lemma OnlyNamed(c: Setup, w: State, j: Job)
    requires Holds(c, w) && OnlyName(c, w, j) && w.status != COMPLETED && TwoWays(c.g, j)
    ensures var names, w0 := Named(Pollables(c, w, c.jobList)), w.(inner := Pollables(c, w, c.jobList)).Tick();
      j.name in names && names[j.name] == j && Sheltered(c, w0, names, j)
      && forall n :: n in names && n != j.name ==> names[n] != j
  {
    PolledNames(c, w);
    assert j.name in FollowedNames(c, w);
    hide Pollables, Named;
  }

  /** A followed job with exactly one line in the poll ends as that line says. */
  lemma PolledJobDecides(c: Setup, w: State, j: Job, k: nat)
    requires Holds(c, w) && OnlyName(c, w, j) && w.status != COMPLETED && TwoWays(c.g, j)
    requires var lines := c.a.poll(w.step.now);
      && k < |lines| && lines[k].name == j.name && lines[k].fields > 0
      && forall i :: 0 <= i < |lines| && i != k && lines[i].fields > 0 ==> lines[i].name != j.name
    ensures var w', lines := CheckRunning(c, w), c.a.poll(w.step.now);
      var t := ClockAfter(c.a, FollowedNames(c, w), lines[..k], w.step.now + 1);
      && w'.StatusOf(j) == StatusAfter(c.a, t, w.StatusOf(j), j in w.running, j.vertical, lines[k].fields)
      && (j in w'.running <==> lines[k].fields != 3 && (j in w.running || lines[k].fields > 1))
      && (j in w'.running ==> w'.running[j] == if j in w.running then w.running[j] else lines[k].start)
  {
    hide *;
    var names, lines := Named(Pollables(c, w, c.jobList)), c.a.poll(w.step.now);
    var w0 := w.(inner := Pollables(c, w, c.jobList)).Tick();
    OnlyNamed(c, w, j);
    PolledNames(c, w);
    PollReads(c, w, j);
    ReadNothing(c, names, w0, lines);
    OtherLines(c, names, w0, lines[..k], 0, j);
    ReadLinesSteps(c, names, w0, lines[..k]);
    OwnLine(c, names, w0, lines, k, j);
    OtherLines(c, names, w0, lines, k + 1, j);
  }

  lemma PollReads(c: Setup, w: State, j: Job)
    requires Holds(c, w) && OnlyName(c, w, j)
    ensures var w0 := w.(inner := Pollables(c, w, c.jobList)).Tick();
      var w' := ReadLines(c, Named(Pollables(c, w, c.jobList)), w0, c.a.poll(w.step.now)).0;
      && CheckRunning(c, w).step == w'.step && CheckRunning(c, w).running == w'.running
      && w0.step.jobs == w.step.jobs && w0.step.now == w.step.now + 1 && w0.running == w.running
      && CheckRunning(c, w).StatusOf(j) == w'.StatusOf(j) && w0.StatusOf(j) == w.StatusOf(j) != COMPLETED
      && forall n :: n in Named(Pollables(c, w, c.jobList)) ==> Named(Pollables(c, w, c.jobList))[n] in w0.step.jobs
  {
    PolledNames(c, w);
    FollowedExactly(c, w);
    hide Pollables, ReadLines, Named;
  }

  lemma ReadNothing(c: Setup, names: map<string, Job>, w: State, lines: seq<PollLine>)
    ensures ReadLines(c, names, w, lines[..0]) == (w, false)
  {}

  /** The job's own line. */
  lemma OwnLine(c: Setup, names: map<string, Job>, w: State, lines: seq<PollLine>, k: nat, j: Job)
    requires k < |lines| && Sheltered(c, ReadLines(c, names, w, lines[..k]).0, names, j)
    requires lines[k].fields > 0 && lines[k].name in names && names[lines[k].name] == j
    requires ReadLines(c, names, w, lines[..k]).0.StatusOf(j) != COMPLETED
    ensures var (v, w') := (ReadLines(c, names, w, lines[..k]).0, ReadLines(c, names, w, lines[..k + 1]).0);
      var line := lines[k];
      && Sheltered(c, w', names, j)
      && w'.StatusOf(j) == StatusAfter(c.a, v.step.now, v.StatusOf(j), j in v.running, j.vertical, line.fields)
      && (j in w'.running <==> line.fields != 3 && (j in v.running || line.fields > 1))
      && (j in w'.running ==> w'.running[j] == if j in v.running then v.running[j] else line.start)
  {
    var (v, over) := ReadLines(c, names, w, lines[..k]);
    assert lines[..k + 1][..k] == lines[..k];
    LineDecides(c, names, v, over, lines[k]);
    forall p | p in c.g.Parents(j) ensures !Downstream(c.g, v.step.jobs, j, p) { NotDownstream(c, v, names, j, j, p); }
    hide ReadLine, Downstream, TwoWays, StatusAfter, LooksAt, GoneAt;
  }

  /** A followed job without a line in the poll is left alone. */
  lemma UnnamedStays(c: Setup, w: State, j: Job)
    requires Holds(c, w) && OnlyName(c, w, j) && w.status != COMPLETED && TwoWays(c.g, j)
    requires forall line :: line in c.a.poll(w.step.now) && line.fields > 0 ==> line.name != j.name
    ensures CheckRunning(c, w).StatusOf(j) == w.StatusOf(j)
    ensures j in CheckRunning(c, w).running <==> j in w.running
  {
    hide *;
    var names, lines := Named(Pollables(c, w, c.jobList)), c.a.poll(w.step.now);
    var w0 := w.(inner := Pollables(c, w, c.jobList)).Tick();
    OnlyNamed(c, w, j);
    PolledNames(c, w);
    PollReads(c, w, j);
    ReadNothing(c, names, w0, lines);
    OtherLines(c, names, w0, lines, 0, j);
  }

  // ---------------------------------------------------------------- completed wrappers

  function CountNamed(names: set<string>, jobs: seq<Job>): (n: nat)
    ensures n <= |jobs|
  {
    if jobs == [] then 0 else CountNamed(names, jobs[..|jobs|-1]) + if jobs[|jobs|-1].name in names then 1 else 0
  }

  /** The next question after finishing `n` jobs. */
  ghost function LooksAfter(a: Answers, n: nat, start: nat): nat {
    if n == 0 then start else LooksAfter(a, n - 1, start) + LooksAt(a, LooksAfter(a, n - 1, start))
  }

  /** The jobs change at most in that those outside `touched` fail from a status in which they can. */
  lemma BecomesKeeps(g: Graph, st: Snapshot, st': Snapshot, j: Job, state: JobState, spread: bool)
    requires j in st && Becomes(g, st, st', j, state, spread)
    ensures forall k :: k in st && k != j ==> KeptOrFailed(st[k].status, st'[k].status)
    ensures forall k :: k in st && k != j && Finished(st[k].status) ==> st'[k] == st[k]
  {
    forall k | k in st && Downstream(g, st, j, k) ensures Failable(st[k].status) {
      var p :| Chain(g, st, j, p) && p[|p|-1] == k;
    }
    hide Downstream;
  }

  /** Apart from the jobs, the clock and who is followed, nothing has changed; of the jobs, those outside
      `touched` at most in failing. */
  ghost predicate Steps(w: State, w': State, now: nat, touched: set<Job>) {
    w' == w.(step := w'.step, running := w'.running) && w'.step.now == now && Frame(w, w', touched)
  }

  lemma StepsOn(w: State, w1: State, w2: State, now1: nat, now2: nat, a: set<Job>, b: set<Job>, touched: set<Job>)
    requires Steps(w, w1, now1, a) && Steps(w1, w2, now2, b) && a <= touched && b <= touched
    ensures Steps(w, w2, now2, touched) && w1.step.now == now1
  {}

  lemma StepsNone(w: State)
    ensures Steps(w, w, w.step.now, {}) && w.running - {} == w.running
  {}

  lemma LastElement(jobs: seq<Job>, running: map<Job, int>)
    requires jobs != []
    ensures var init, last := jobs[..|jobs|-1], jobs[|jobs|-1];
      && Elements(jobs) == Elements(init) + {last} && last in Elements(jobs)
      && running - Elements(init) - {last} == running - Elements(jobs)
  {
    assert jobs == jobs[..|jobs|-1] + [jobs[|jobs|-1]];
  }

  /** A job that has finished stays so where it is not touched. */
  lemma StaysDecided(w: State, w': State, now: nat, touched: set<Job>, j: Job)
    requires Steps(w, w', now, touched) && j in w.step.jobs && j !in touched && Finished(w.StatusOf(j))
    ensures w'.StatusOf(j) == w.StatusOf(j) && j in w'.step.jobs
  {}

  lemma OneNamed(c: Setup, w: State, j: Job)
    requires j in w.step.jobs
    ensures var w' := UpdateJob(c, w.SetNew(j, COMPLETED), j, false);
      && Steps(w, w', w.step.now + 1, {j}) && w'.running == w.running
      && w'.StatusOf(j) == (if c.a.yes(w.step.now) then COMPLETED else FAILED)
  {
    UpdateToBecomes(c, w, j, COMPLETED, false);
    var w' := UpdateJob(c, w.SetNew(j, COMPLETED), j, false);
    BecomesKeeps(c.g, w.step.jobs, w'.step.jobs, j, w'.step.jobs[j], w'.StatusOf(j) == FAILED);
    hide UpdateJob, WithNewStatus, Downstream;
  }

  lemma OneFinished(c: Setup, w: State, j: Job)
    requires j in w.step.jobs
    ensures var w' := CheckFinished(c, w, j, false);
      && Steps(w, w', w.step.now + LooksAt(c.a, w.step.now), {j}) && w'.running == w.running - {j}
      && w'.StatusOf(j) == if SeenAt(c.a, w.step.now) then COMPLETED else FAILED
  {
    FinishMeans(c, w, j, false);
    var w' := CheckFinished(c, w, j, false);
    BecomesKeeps(c.g, w.step.jobs, w'.step.jobs, j, w'.step.jobs[j], GoneAt(c.a, w.step.now));
    hide CheckFinished, Downstream, SeenAt, GoneAt, LooksAt;
  }

  lemma CompleteLast(c: Setup, names: set<string>, w: State, jobs: seq<Job>)
    ensures jobs == [] ==> CompleteNamed(c, names, w, jobs) == w && CountNamed(names, jobs) == 0
    ensures jobs != [] ==>
      var before, last := CompleteNamed(c, names, w, jobs[..|jobs|-1]), jobs[|jobs|-1];
      && CompleteNamed(c, names, w, jobs)
        == (if last.name in names then UpdateJob(c, before.SetNew(last, COMPLETED), last, false) else before)
      && CountNamed(names, jobs) == CountNamed(names, jobs[..|jobs|-1]) + if last.name in names then 1 else 0
  {}

  lemma FinishLast(c: Setup, w: State, jobs: seq<Job>)
    ensures jobs == [] ==> FinishEach(c, w, jobs) == w && Elements(jobs) == {}
    ensures jobs != [] ==>
      FinishEach(c, w, jobs) == CheckFinished(c, FinishEach(c, w, jobs[..|jobs|-1]), jobs[|jobs|-1], false)
    ensures forall n: nat :: n > 0 ==>
      var t := LooksAfter(c.a, n - 1, w.step.now); LooksAfter(c.a, n, w.step.now) == t + LooksAt(c.a, t)
    ensures LooksAfter(c.a, 0, w.step.now) == w.step.now
  {
    hide CheckFinished, LooksAt;
  }

  lemma StepsHold(w: State, w': State, now: nat, touched: set<Job>, j: Job)
    requires Steps(w, w', now, touched) && j in w.step.jobs
    ensures j in w'.step.jobs && w'.step.now == now
  {}

  lemma {:induction false} NamedSteps(c: Setup, names: set<string>, w: State, jobs: seq<Job>)
    requires forall j :: j in jobs ==> j in w.step.jobs
    ensures var w' := CompleteNamed(c, names, w, jobs);
      Steps(w, w', w.step.now + CountNamed(names, jobs), Elements(jobs)) && w'.running == w.running
  {
    hide *;
    CompleteLast(c, names, w, jobs);
    if jobs == [] {
      FinishLast(c, w, jobs);
      StepsNone(w);
    } else {
      var init, last := jobs[..|jobs|-1], jobs[|jobs|-1];
      var before := CompleteNamed(c, names, w, init);
      NamedSteps(c, names, w, init);
      StepsHold(w, before, w.step.now + CountNamed(names, init), Elements(init), last);
      LastElement(jobs, w.running);
      StepsNone(before);
      if last.name in names { OneNamed(c, before, last); }
      StepsOn(w, before, CompleteNamed(c, names, w, jobs), w.step.now + CountNamed(names, init),
              w.step.now + CountNamed(names, jobs), Elements(init), if last.name in names then {last} else {},
              Elements(jobs));
    }
  }

  /** The jobs whose COMPLETED files have been found are COMPLETED, each if its own look finds the file
      still there, one question each. */
  lemma {:induction false} NamedDecide(c: Setup, names: set<string>, w: State, jobs: seq<Job>, i: nat)
    requires NoRepeats(jobs) && (forall j :: j in jobs ==> j in w.step.jobs) && i < |jobs| && jobs[i].name in names
    ensures CompleteNamed(c, names, w, jobs).StatusOf(jobs[i]) ==
      if c.a.yes(w.step.now + CountNamed(names, jobs[..i])) then COMPLETED else FAILED
  {
    hide *;
    var n := |jobs| - 1;
    var init, last := jobs[..n], jobs[n];
    var before := CompleteNamed(c, names, w, init);
    CompleteLast(c, names, w, jobs);
    NamedSteps(c, names, w, init);
    StepsHold(w, before, w.step.now + CountNamed(names, init), Elements(init), last);
    StepsHold(w, before, w.step.now + CountNamed(names, init), Elements(init), jobs[i]);
    if last.name in names { OneNamed(c, before, last); }
    if i < n {
      DistinctInit(jobs, i);
      NamedDecide(c, names, w, init, i);
      EndsFinished(before.StatusOf(jobs[i]));
      if last.name in names {
        StaysDecided(before, CompleteNamed(c, names, w, jobs), before.step.now + 1, {last}, jobs[i]);
      }
    }
  }

  lemma EndsFinished(s: Status)
    ensures s == COMPLETED || s == FAILED ==> Finished(s)
  {}

  lemma DistinctInit(jobs: seq<Job>, i: nat)
    requires NoRepeats(jobs) && i < |jobs| - 1
    ensures var init := jobs[..|jobs|-1];
      NoRepeats(init) && init[..i] == jobs[..i] && init[i] == jobs[i] != jobs[|jobs|-1]
  {}

  lemma {:induction false} MissingSteps(c: Setup, w: State, jobs: seq<Job>)
    requires forall j :: j in jobs ==> j in w.step.jobs
    ensures var w' := FinishEach(c, w, jobs);
      Steps(w, w', LooksAfter(c.a, |jobs|, w.step.now), Elements(jobs)) && w'.running == w.running - Elements(jobs)
  {
    hide *;
    FinishLast(c, w, jobs);
    if jobs == [] {
      StepsNone(w);
    } else {
      var init, last := jobs[..|jobs|-1], jobs[|jobs|-1];
      var before := FinishEach(c, w, init);
      var now := LooksAfter(c.a, |init|, w.step.now);
      MissingSteps(c, w, init);
      StepsHold(w, before, now, Elements(init), last);
      LastElement(jobs, w.running);
      OneFinished(c, before, last);
      StepsOn(w, before, FinishEach(c, w, jobs), now, LooksAfter(c.a, |jobs|, w.step.now), Elements(init), {last},
              Elements(jobs));
    }
  }

  /** The others are finished one after the other. */
  lemma {:induction false} MissingDecide(c: Setup, w: State, jobs: seq<Job>, i: nat)
    requires NoRepeats(jobs) && (forall j :: j in jobs ==> j in w.step.jobs) && i < |jobs|
    ensures FinishEach(c, w, jobs).StatusOf(jobs[i]) ==
      if SeenAt(c.a, LooksAfter(c.a, i, w.step.now)) then COMPLETED else FAILED
  {
    hide *;
    var n := |jobs| - 1;
    var init, last := jobs[..n], jobs[n];
    var before := FinishEach(c, w, init);
    FinishLast(c, w, jobs);
    MissingSteps(c, w, init);
    StepsHold(w, before, LooksAfter(c.a, n, w.step.now), Elements(init), last);
    StepsHold(w, before, LooksAfter(c.a, n, w.step.now), Elements(init), jobs[i]);
    OneFinished(c, before, last);
    if i < n {
      DistinctInit(jobs, i);
      MissingDecide(c, w, init, i);
      EndsFinished(before.StatusOf(jobs[i]));
      StaysDecided(before, FinishEach(c, w, jobs), before.step.now + LooksAt(c.a, before.step.now), {last}, jobs[i]);
    }
  }

  ghost function Unfinished(w: State, jobs: seq<Job>): (r: seq<bool>)
    ensures |r| == |jobs|
  {
    seq(|jobs|, i requires 0 <= i < |jobs| => w.StatusOf(jobs[i]) != COMPLETED)
  }

  function Unnamed(names: set<string>, jobs: seq<Job>): (r: seq<bool>)
    ensures |r| == |jobs|
  {
    seq(|jobs|, i requires 0 <= i < |jobs| => jobs[i].name !in names)
  }

  lemma {:induction false} NotCompletedKept(w: State, jobs: seq<Job>)
    ensures NotCompleted(w, jobs) == Picked(jobs, Unfinished(w, jobs))
  {
    if jobs != [] {
      var n := |jobs| - 1;
      NotCompletedKept(w, jobs[..n]);
      PickedLast(jobs, Unfinished(w, jobs));
      assert Unfinished(w, jobs)[..n] == Unfinished(w, jobs[..n]);
    }
  }

  lemma {:induction false} MissingKept(names: set<string>, jobs: seq<Job>)
    ensures Missing(names, jobs) == Picked(jobs, Unnamed(names, jobs))
    ensures |Missing(names, jobs)| == |jobs| - CountNamed(names, jobs)
  {
    if jobs != [] {
      var n := |jobs| - 1;
      MissingKept(names, jobs[..n]);
      PickedLast(jobs, Unnamed(names, jobs));
      assert Unnamed(names, jobs)[..n] == Unnamed(names, jobs[..n]);
      assert jobs == jobs[..n] + [jobs[n]];
    }
  }

  lemma {:induction false} FoundOrMissing(names: set<string>, jobs: seq<Job>)
    ensures Elements(jobs) == Elements(Found(names, jobs)) + Elements(Missing(names, jobs))
  {
    if jobs != [] {
      var n := |jobs| - 1;
      var last := if jobs[n].name in names then Found(names, jobs) else Missing(names, jobs);
      FoundOrMissing(names, jobs[..n]);
      LastElement(jobs, map[]);
      LastElement(last, map[]);
      hide Elements;
      assert last == last[..|last|-1] + [jobs[n]];
    }
  }

  lemma {:induction false} MissingAt(names: set<string>, jobs: seq<Job>, i: nat)
    requires i < |jobs| && jobs[i].name !in names
    ensures var m := i - CountNamed(names, jobs[..i]);
      0 <= m < |Missing(names, jobs)| && Missing(names, jobs)[m] == jobs[i]
  {
    var n := |jobs| - 1;
    MissingKept(names, jobs[..n]);
    hide Found, Unnamed, Picked;
    if i < n {
      MissingAt(names, jobs[..n], i);
      assert jobs[..n][..i] == jobs[..i];
    }
  }

  lemma TodoHeld(c: Setup, w: State, todo: seq<Job>)
    requires Holds(c, w) && NoRepeats(c.jobList) && todo == Picked(c.jobList, Unfinished(w, c.jobList))
    ensures NoRepeats(todo) && w.Tick().step.now == w.step.now + 1
    ensures forall j :: j in todo ==> j in w.Tick().step.jobs
  {
    PickedIn(c.jobList, Unfinished(w, c.jobList));
    hide Picked, NoRepeats;
  }

  lemma CompletionRuns(c: Setup, w: State, todo: seq<Job>, names: set<string>)
    requires todo == NotCompleted(w, c.jobList) != [] && names == c.a.completed(w.step.now)
    ensures var w1 := CompleteNamed(c, names, w.Tick(), todo);
      var w2 := w1.(running := w1.running - Elements(Found(names, todo)));
      CheckCompleted(c, w) == FinishEach(c, w2, Missing(names, todo))
  {
    hide NotCompleted, CompleteNamed, FinishEach, Found, Missing, Elements;
  }

  /** After the jobs with COMPLETED files. */
  lemma MissingHeld(w: State, w1: State, now: nat, names: set<string>, todo: seq<Job>)
    requires Steps(w.Tick(), w1, now, Elements(todo)) && w1.running == w.Tick().running
    requires forall j :: j in todo ==> j in w.Tick().step.jobs
    requires Elements(todo) == Elements(Found(names, todo)) + Elements(Missing(names, todo))
    ensures var w2 := w1.(running := w1.running - Elements(Found(names, todo)));
      && w2 == w.(step := w2.step, running := w2.running) && w2.step.now == now
      && (forall j :: j in Missing(names, todo) ==> j in w2.step.jobs)
      && w2.running - Elements(Missing(names, todo)) == w.running - Elements(todo)
  {
    hide Found, Missing;
    forall j | j in Missing(names, todo) ensures j in todo { assert j in Elements(todo); }
  }

  lemma SameStatus(w: State, w': State, j: Job)
    requires w'.step == w.step
    ensures w'.StatusOf(j) == w.StatusOf(j)
  {}

  lemma FinishedLater(w: State, w2: State, w': State, now: nat, names: set<string>, todo: seq<Job>, i: nat)
    requires i < |todo| && NoRepeats(todo) && todo[i].name in names && Finished(w2.StatusOf(todo[i]))
    requires Steps(w2, w', now, Elements(Missing(names, todo))) && todo[i] in w2.step.jobs
    ensures w'.StatusOf(todo[i]) == w2.StatusOf(todo[i])
  {
    MissingKept(names, todo);
    PickedIn(todo, Unnamed(names, todo));
    hide Found, Missing, Picked, Frame;
    assert todo[i] !in Elements(Missing(names, todo));
    StaysDecided(w2, w', now, Elements(Missing(names, todo)), todo[i]);
  }

  /** The check of a completed wrapper, for the i-th job that is not COMPLETED: with a COMPLETED file it
      is COMPLETED if its own look finds it, without one it is finished like any job. All of them are no
      longer followed. */
  lemma CompletionDecides(c: Setup, w: State, i: nat)
    requires Holds(c, w) && NoRepeats(c.jobList) && i < |Picked(c.jobList, Unfinished(w, c.jobList))|
    ensures var w', todo := CheckCompleted(c, w), Picked(c.jobList, Unfinished(w, c.jobList));
      var (j, names, t) := (todo[i], c.a.completed(w.step.now), w.step.now + 1);
      var before := CountNamed(names, todo[..i]);
      && w' == w.(step := w'.step, running := w.running - Elements(todo))
      && w'.StatusOf(j) == if j.name in names
           then (if c.a.yes(t + before) then COMPLETED else FAILED)
           else if SeenAt(c.a, LooksAfter(c.a, i - before, t + CountNamed(names, todo))) then COMPLETED else FAILED
  {
    hide *;
    var todo, names := Picked(c.jobList, Unfinished(w, c.jobList)), c.a.completed(w.step.now);
    var now := w.step.now + 1 + CountNamed(names, todo);
    NotCompletedKept(w, c.jobList);
    TodoHeld(c, w, todo);
    MissingKept(names, todo);
    FoundOrMissing(names, todo);
    PickedIn(todo, Unnamed(names, todo));
    NamedSteps(c, names, w.Tick(), todo);
    var w1 := CompleteNamed(c, names, w.Tick(), todo);
    var w2 := w1.(running := w1.running - Elements(Found(names, todo)));
    CompletionRuns(c, w, todo, names);
    MissingHeld(w, w1, now, names, todo);
    MissingSteps(c, w2, Missing(names, todo));
    var w' := CheckCompleted(c, w);
    StepsAre(w2, w', LooksAfter(c.a, |Missing(names, todo)|, now), Elements(Missing(names, todo)));
    if todo[i].name in names {
      NamedDecide(c, names, w.Tick(), todo, i);
      SameStatus(w1, w2, todo[i]);
      StepsHold(w.Tick(), w1, now, Elements(todo), todo[i]);
      EndsFinished(w2.StatusOf(todo[i]));
      FinishedLater(w, w2, w', LooksAfter(c.a, |Missing(names, todo)|, now), names, todo, i);
    } else {
      MissingAt(names, todo, i);
      MissingDecide(c, w2, Missing(names, todo), i - CountNamed(names, todo[..i]));
    }
  }

  lemma StepsAre(w: State, w': State, now: nat, touched: set<Job>)
    requires Steps(w, w', now, touched)
    ensures w' == w.(step := w'.step, running := w'.running)
  {}
}

/** The recovery of a run after an error: first the list of jobs is prepared again, then the
    platforms are connected again, and all attempts of the run share one limit. Sleeping is
    counted. */
module Recovery {

  /** How often preparing, and then connecting, fails before it succeeds. A failure that lasts
      is one that outlasts the limit. */
  datatype Episode = Episode(prepareFailures: nat, restoreFailures: nat)

  function Min(a: int, b: int): int { if a < b then a else b }

  function Power2(n: nat): (p: nat)
    ensures p > 0
  {
    if n == 0 then 1 else 2 * Power2(n - 1)
  }

  /** The attempt of the n-th mail, counted from one. */
  function MailAttempt(n: nat): nat
    requires n > 0
  {
    1 + 20 * (Power2(n - 1) - 1)
  }

  /** The attempts of the first n mails. */
  function MailAttempts(n: nat): seq<nat> {
    if n == 0 then [] else MailAttempts(n - 1) + [MailAttempt(n)]
  }

  /** The attempts made of those needed, after some have been used. */
  function Attempts(limit: int, used: nat, needed: nat): nat
    requires limit > 0 ==> used <= limit
  {
    if limit > 0 then Min(needed, limit - used) else needed
  }

  /** What n attempts to prepare sleep in all. */
  function PrepareSleep(n: nat): nat {
    if n == 0 then 0 else PrepareSleep(n - 1) + Min(15 * n, 120)
  }

  /** The attempts that the episodes need until they succeed. */
  function Demand(es: seq<Episode>): nat {
    if es == [] then 0 else Demand(es[..|es|-1]) + es[|es|-1].prepareFailures + 1 + es[|es|-1].restoreFailures + 1
  }

  lemma {:induction false} PrepareSleepClosed(n: nat)
    ensures PrepareSleep(n) == if n <= 8 then 15 * n * (n + 1) / 2 else 540 + 120 * (n - 8)
    ensures PrepareSleep(n) <= 120 * n
  {
    if n > 0 {
      PrepareSleepClosed(n - 1);
      if n <= 8 { assert 15 * n * (n + 1) == 15 * (n - 1) * n + 30 * n; }
    }
  }

  lemma {:induction false} DemandGrows(es: seq<Episode>, k: nat)
    requires k <= |es|
    ensures Demand(es[..k]) <= Demand(es)
  {
    if k == |es| {
      assert es[..k] == es;
    } else {
      assert es[..|es|-1][..k] == es[..k];
      DemandGrows(es[..|es|-1], k);
    }
  }

  /** Every episode needs an attempt more than it fails, to prepare and again to connect. */
  lemma {:induction false} DemandAdds(a: seq<Episode>, e: Episode, b: seq<Episode>)
    ensures Demand([]) == 0 && Demand([e]) == e.prepareFailures + e.restoreFailures + 2
    ensures Demand(a + [e] + b) == Demand(a) + Demand([e]) + Demand(b)
  {
    assert [e][..0] == [];
    if b == [] {
      assert a + [e] + b == a + [e] && (a + [e])[..|a|] == a;
    } else {
      assert (a + [e] + b)[..|a + [e] + b| - 1] == a + [e] + b[..|b|-1];
      DemandAdds(a, e, b[..|b|-1]);
    }
  }

  /** The period between mails doubles. */
  lemma NextMail(n: nat)
    ensures MailAttempts(n + 1) == MailAttempts(n) + [MailAttempt(n + 1)]
    ensures Period(n + 1) == Period(n) + Period(n) && Period(0) == 10 && Period(n) > 0
    ensures if n == 0 then MailAttempt(1) == 1 else MailAttempt(n + 1) == MailAttempt(n) + Period(n)
  {}

  function Period(n: nat): nat { 10 * Power2(n) }

  predicate MailDue(times: nat, period: nat)
    requires period > 0
  {
    times % period == 0
  }

  lemma AtPeriod(times: nat, period: nat)
    requires times <= period && period > 0
    ensures MailDue(times, period) <==> times == 0 || times == period
  {}

  /** Where the schedule of mails stands after some attempts. */
  ghost predicate Scheduled(attempts: nat, mails: seq<nat>, times: nat, maxTimes: nat) {
    && mails == MailAttempts(|mails|) && maxTimes == Period(|mails|)
    && if attempts == 0 then mails == [] && times == 0
       else mails != [] && times == attempts - MailAttempt(|mails|) + 1 && 1 <= times <= maxTimes
  }

  lemma ScheduledFirst()
    ensures Scheduled(0, [], 0, 10)
  {}

  lemma ScheduledNext(attempts: nat, mails: seq<nat>, times: nat, maxTimes: nat)
    requires Scheduled(attempts, mails, times, maxTimes)
    ensures maxTimes > 0
    ensures if MailDue(times, maxTimes) then Scheduled(attempts + 1, mails + [attempts + 1], 1, maxTimes + maxTimes)
      else Scheduled(attempts + 1, mails, times + 1, maxTimes)
  {
    NextMail(|mails|);
    AtPeriod(times, maxTimes);
    hide Period, MailAttempt, MailAttempts, MailDue;
  }

  lemma ScheduledMeans(attempts: nat, mails: seq<nat>, times: nat, maxTimes: nat)
    requires Scheduled(attempts, mails, times, maxTimes)
    ensures mails == MailAttempts(|mails|) && (attempts == 0 <==> mails == [])
    ensures mails != [] ==> MailAttempt(|mails|) <= attempts < MailAttempt(|mails| + 1)
  {
    NextMail(|mails|);
    hide Period, MailAttempt, MailAttempts;
  }

  class Run {
    /** The most attempts; without a positive limit they may go on forever. */
    const limit: int
    var retrials: nat
    var slept: nat

    constructor (limit: int)
      ensures Valid() && this.limit == limit && retrials == 0 && slept == 0
    {
      this.limit, retrials, slept := limit, 0, 0;
    }

    /** The attempts never exceed a positive limit, nor the sleep two minutes each. */
    ghost predicate Valid()
      reads this
    {
      (limit > 0 ==> retrials <= limit) && slept <= 120 * retrials
    }

    /** The attempts to prepare the run. The delay grows with every attempt. */
    method Prepare(failures: nat) returns (ghost attempts: nat)
      requires Valid()
      modifies this
      ensures Valid() && attempts == Attempts(limit, old(retrials), failures + 1)
      ensures retrials == old(retrials) + attempts && slept == old(slept) + PrepareSleep(attempts)
      ensures limit <= 0 || old(retrials) + failures < limit ==> attempts == failures + 1
      ensures limit > 0 && old(retrials) + failures >= limit ==> retrials == limit
    {
      var recovery, consecutiveRetrials := false, 1;
      attempts := 0;
      while !recovery && (retrials < limit || limit <= 0)
        invariant Valid() && consecutiveRetrials == attempts + 1
        invariant retrials == old(retrials) + attempts && slept == old(slept) + PrepareSleep(attempts)
        invariant attempts <= failures + 1 && (recovery <==> attempts == failures + 1)
        decreases failures + 1 - attempts
      {
        var delay := Min(15 * consecutiveRetrials, 120);
        retrials := retrials + 1;
        slept := slept + delay;
        recovery := consecutiveRetrials > failures;
        consecutiveRetrials := consecutiveRetrials + 1;
        attempts := attempts + 1;
      }
    }

    /** The attempts to connect, with those that ask for a mail. The delay is not updated. */
    method Restore(failures: nat) returns (attempts: nat, mails: seq<nat>)
      requires Valid()
      modifies this
      ensures Valid() && attempts == Attempts(limit, old(retrials), failures + 1)
      ensures retrials == old(retrials) + attempts && slept == old(slept) + 15 * attempts
      ensures mails == MailAttempts(|mails|)
      ensures (attempts == 0 <==> mails == [])
        && (mails != [] ==> MailAttempt(|mails|) <= attempts < MailAttempt(|mails| + 1))
      ensures limit <= 0 || old(retrials) + failures < limit ==> attempts == failures + 1
      ensures limit > 0 && old(retrials) + failures >= limit ==> retrials == limit
    {
      var reconnected, times, maxTimes, consecutiveRetrials := false, 0, 10, 1;
      var delay := Min(15 * consecutiveRetrials, 120);
      attempts, mails := 0, [];
      hide MailAttempt, MailAttempts, Period, MailDue, Power2, Scheduled;
      ScheduledFirst();
      while !reconnected && (retrials < limit || limit <= 0)
        invariant Valid() && consecutiveRetrials == attempts + 1
        invariant retrials == old(retrials) + attempts && slept == old(slept) + 15 * attempts
        invariant attempts <= failures + 1 && (reconnected <==> attempts == failures + 1)
        invariant times >= 0 && maxTimes >= 0 && Scheduled(attempts, mails, times, maxTimes)
        decreases failures + 1 - attempts
      {
        retrials := retrials + 1;
        slept := slept + delay;
        consecutiveRetrials := consecutiveRetrials + 1;
        attempts := attempts + 1;
        ScheduledNext(attempts - 1, mails, times, maxTimes);
        var mailNotify := MailDue(times, maxTimes);
        if mailNotify {
          maxTimes := maxTimes + maxTimes;
          times := 0;
          mails := mails + [attempts];
        }
        times := times + 1;
        reconnected := attempts > failures;
      }
      ScheduledMeans(attempts, mails, times, maxTimes);
    }

    /** An error, up to the point where the run goes on or is given up. It is given up when a
        positive limit is reached, even by an attempt that succeeds. */
    method Recover(e: Episode) returns (critical: bool)
      requires Valid()
      modifies this
      ensures Valid()
      ensures retrials == old(retrials) + Attempts(limit, old(retrials), e.prepareFailures + 1 + e.restoreFailures + 1)
      ensures critical == (limit > 0 && retrials == limit)
      ensures limit <= 0 ==> retrials == old(retrials) + e.prepareFailures + e.restoreFailures + 2
    {
      var prepared := Prepare(e.prepareFailures);
      var attempts, mails := Restore(e.restoreFailures);
      critical := retrials == limit && limit > 0;
    }

    /** The errors of a whole run, up to the one that makes it give up. */
    method RecoverAll(es: seq<Episode>) returns (critical: bool)
      requires Valid() && retrials == 0
      modifies this
      ensures Valid() && (limit <= 0 || Demand(es) <= limit ==> retrials == Demand(es))
      ensures limit > 0 ==> retrials <= limit && slept <= 120 * limit
      ensures limit > 0 && Demand(es) > limit ==> retrials == limit
      ensures critical <==> limit > 0 && Demand(es) >= limit
    {
      critical := false;
      for i := 0 to |es|
        invariant Valid() && !critical && retrials == Demand(es[..i]) && (limit > 0 ==> retrials < limit)
      {
        assert es[..i + 1][..i] == es[..i];
        DemandGrows(es, i + 1);
        critical := Recover(es[i]);
        if critical { return; }
      }
      assert es[..|es|] == es;
    }
  }
}

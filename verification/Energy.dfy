/** The distribution of the energy that a wrapper has used over its jobs, by the three wrapper
    strategies, and how far the energies that the jobs end with are from what was measured. */
module Energy {
  import opened Options
  import opened Digraph
  import opened JobRecords
  import opened Levels

  /** The energies that the platform reports. */
  datatype Monitor = Monitor(header: Option<real>, steps: seq<real>, extern: Option<real>)

  function Sum(xs: seq<real>): real {
    if xs == [] then 0.0 else Sum(xs[..|xs|-1]) + xs[|xs|-1]
  }

  function TotalWeight(jobs: seq<JobData>): nat {
    if jobs == [] then 0 else TotalWeight(jobs[..|jobs|-1]) + jobs[|jobs|-1].computationalWeight
  }

  function Share(weight: nat, total: nat): real
    requires total > 0
  {
    Round4(weight as real / total as real)
  }

  function Max(x: real, y: real): real { if x < y then y else x }

  // ---------------------------------------------------------------- energies of jobs

  type Energies = map<JobData, real>

  ghost function EnergiesOf(jobs: set<JobData>): Energies
    reads jobs`energy
  {
    map j | j in jobs :: j.energy
  }

  /** A job is given an energy. The job being processed follows the one of its name. */
  ghost function GiveOne(st: Energies, dc: JobData, j: JobData, given: real): Energies {
    if j !in st || dc !in st then st
    else
      var st1 := st[j := Stored(st[j], given)];
      if j.jobName == dc.jobName then st1[dc := Stored(st1[dc], st1[j])] else st1
  }

  ghost function Give(st: Energies, dc: JobData, jobs: seq<JobData>, given: seq<real>): Energies
    requires |jobs| == |given|
  {
    if jobs == [] then st
    else GiveOne(Give(st, dc, jobs[..|jobs|-1], given[..|given|-1]), dc, jobs[|jobs|-1], given[|given|-1])
  }

  lemma GiveNone(st: Energies, dc: JobData, jobs: seq<JobData>, given: seq<real>)
    ensures Give(st, dc, jobs[..0], given[..0]) == st
  {}

  lemma GiveOneMore(st: Energies, dc: JobData, jobs: seq<JobData>, given: seq<real>, i: nat)
    requires |jobs| == |given| && i < |jobs|
    ensures Give(st, dc, jobs[..i + 1], given[..i + 1])
      == GiveOne(Give(st, dc, jobs[..i], given[..i]), dc, jobs[i], given[i])
  {
    assert jobs[..i + 1][..i] == jobs[..i] && given[..i + 1][..i] == given[..i];
  }

  method GiveEnergy(dc: JobData, j: JobData, given: real, ghost all: set<JobData>)
    requires j in all && dc in all
    modifies j`energy, j`requireUpdate, dc`energy, dc`requireUpdate
    ensures EnergiesOf(all) == GiveOne(old(EnergiesOf(all)), dc, j, given)
  {
    j.SetEnergy(given);
    if j.jobName == dc.jobName { dc.SetEnergy(j.energy); }
  }

  ghost function All(dc: JobData, jobs: seq<JobData>): set<JobData> { (set j | j in jobs) + {dc} }

  // ---------------------------------------------------------------- weights of the jobs

  /** `get_calculated_weights_of_jobs_in_wrapper`: shares of the total weight, by name. */
  function Weights(jobs: seq<JobData>, total: nat): map<string, real>
    requires total > 0
  {
    if jobs == [] then map[]
    else Weights(jobs[..|jobs|-1], total)[jobs[|jobs|-1].jobName := Share(jobs[|jobs|-1].computationalWeight, total)]
  }

  function AtLeastOne(n: nat): nat { if n == 0 then 1 else n }

  method SumWeights(jobs: seq<JobData>) returns (total: nat)
    ensures total == TotalWeight(jobs)
  {
    total := 0;
    for i := 0 to |jobs|
      invariant total == TotalWeight(jobs[..i])
    {
      assert jobs[..i + 1][..i] == jobs[..i];
      total := total + jobs[i].computationalWeight;
    }
    assert jobs[..|jobs|] == jobs;
  }

  method CalculatedWeights(jobs: seq<JobData>) returns (weights: map<string, real>)
    ensures weights == Weights(jobs, AtLeastOne(TotalWeight(jobs)))
  {
    var total := SumWeights(jobs);
    if total == 0 { total := 1; }
    weights := map[];
    for i := 0 to |jobs|
      invariant weights == Weights(jobs[..i], total)
    {
      assert jobs[..i + 1][..i] == jobs[..i];
      weights := weights[jobs[i].jobName := Share(jobs[i].computationalWeight, total)];
    }
    assert jobs[..|jobs|] == jobs;
  }

  function WeightOf(weights: map<string, real>, j: JobData): real {
    if j.jobName in weights then weights[j.jobName] else 0.0
  }

  // ---------------------------------------------------------------- one step for each job

  function WithShare(energy: real, weight: real, rest: real): real { energy + weight * rest }

  /** What the straight strategy gives: the energy of the step, and a share of the rest. */
  function StraightGiven(jobs: seq<JobData>, steps: seq<real>, extern: real): (r: seq<real>)
    requires |jobs| == |steps|
    ensures |r| == |jobs|
  {
    var weights := Weights(jobs, AtLeastOne(TotalWeight(jobs)));
    seq(|jobs|, i requires 0 <= i < |jobs| => WithShare(steps[i], WeightOf(weights, jobs[i]), extern))
  }

  method GiveStepsAndShares(dc: JobData, jobs: seq<JobData>, steps: seq<real>, extern: real)
    returns (result: seq<JobData>)
    requires |jobs| == |steps|
    modifies All(dc, jobs)`energy, All(dc, jobs)`requireUpdate
    ensures result == jobs
    ensures EnergiesOf(All(dc, jobs))
      == Give(old(EnergiesOf(All(dc, jobs))), dc, jobs, StraightGiven(jobs, steps, extern))
  {
    ghost var all, st, given := All(dc, jobs), EnergiesOf(All(dc, jobs)), StraightGiven(jobs, steps, extern);
    hide Give, GiveOne, WithShare, Weights, WeightOf, TotalWeight, EnergiesOf;
    GiveNone(st, dc, jobs, given);
    result := [];
    var weights := CalculatedWeights(jobs);
    for i := 0 to |jobs|
      invariant result == jobs[..i] && EnergiesOf(all) == Give(st, dc, jobs[..i], given[..i])
    {
      assert given[i] == WithShare(steps[i], WeightOf(weights, jobs[i]), extern);
      GiveOneMore(st, dc, jobs, given, i);
      GiveEnergy(dc, jobs[i], WithShare(steps[i], WeightOf(weights, jobs[i]), extern), all);
      result := result + [jobs[i]];
    }
    assert jobs[..|jobs|] == jobs && given[..|jobs|] == given;
  }

  /** `StraightWrapperAssociationStrategy.apply_distribution`. The rest is only asked for when
      there is a job. */
  method StraightDistribution(dc: JobData, jobs: seq<JobData>, monitor: Monitor) returns (result: seq<JobData>)
    modifies jobs, dc
    ensures var st, all := old(EnergiesOf(All(dc, jobs))), All(dc, jobs);
      if |jobs| != |monitor.steps| then
        result == [] && EnergiesOf(all) == st && dc.rowstatus == old(dc.rowstatus)
      else if jobs != [] && monitor.extern.None? then
        result == [dc] && EnergiesOf(all) == st && dc.rowstatus == FAULTY
      else
        && result == jobs + [dc] && dc.rowstatus == PROCESSED
        && (monitor.extern.Some? ==>
            EnergiesOf(all) == Give(st, dc, jobs, StraightGiven(jobs, monitor.steps, monitor.extern.value)))
  {
    hide Give, EnergiesOf, StraightGiven;
    result := [];
    if |jobs| != |monitor.steps| { return; }
    if monitor.extern.Some? {
      result := GiveStepsAndShares(dc, jobs, monitor.steps, monitor.extern.value);
    } else if jobs != [] {
      dc.rowstatus := FAULTY;
      return [dc];
    }
    dc.rowstatus := PROCESSED;
    result := result + [dc];
  }

  // ---------------------------------------------------------------- one total for all jobs

  /** `total_energy`: the header and the sum of the parts need not agree. */
  function TotalEnergy(monitor: Monitor): Option<real> {
    if monitor.header.Some? && monitor.extern.Some?
    then Some(Max(monitor.header.value, Sum(monitor.steps) + monitor.extern.value))
    else None
  }

  function Portion(weight: real, energy: real): real { Round2(weight * energy) }

  function GeneralizedGiven(jobs: seq<JobData>, total: real): (r: seq<real>)
  {
    var weights := Weights(jobs, AtLeastOne(TotalWeight(jobs)));
    seq(|jobs|, i requires 0 <= i < |jobs| => Portion(WeightOf(weights, jobs[i]), total))
  }

  method GivePortions(dc: JobData, jobs: seq<JobData>, total: real) returns (result: seq<JobData>)
    modifies All(dc, jobs)`energy, All(dc, jobs)`requireUpdate
    ensures result == jobs
    ensures EnergiesOf(All(dc, jobs)) == Give(old(EnergiesOf(All(dc, jobs))), dc, jobs, GeneralizedGiven(jobs, total))
  {
    ghost var all, st, given := All(dc, jobs), EnergiesOf(All(dc, jobs)), GeneralizedGiven(jobs, total);
    hide Give, GiveOne, Portion, Weights, WeightOf, TotalWeight, EnergiesOf;
    GiveNone(st, dc, jobs, given);
    result := [];
    var weights := CalculatedWeights(jobs);
    for i := 0 to |jobs|
      invariant result == jobs[..i] && EnergiesOf(all) == Give(st, dc, jobs[..i], given[..i])
    {
      assert given[i] == Portion(WeightOf(weights, jobs[i]), total);
      GiveOneMore(st, dc, jobs, given, i);
      GiveEnergy(dc, jobs[i], Portion(WeightOf(weights, jobs[i]), total), all);
      result := result + [jobs[i]];
    }
    assert jobs[..|jobs|] == jobs && given[..|jobs|] == given;
  }

  /** `GeneralizedWrapperDistributionStrategy.apply_distribution`. The total is only asked for
      when there is a job. */
  method GeneralizedDistribution(dc: JobData, jobs: seq<JobData>, monitor: Monitor) returns (result: seq<JobData>)
    modifies jobs, dc
    ensures var st, all, total := old(EnergiesOf(All(dc, jobs))), All(dc, jobs), TotalEnergy(monitor);
      if jobs != [] && total.None? then
        result == [dc] && EnergiesOf(all) == st && dc.rowstatus == FAULTY
      else
        && result == jobs + [dc] && dc.rowstatus == PROCESSED
        && (total.Some? ==> EnergiesOf(all) == Give(st, dc, jobs, GeneralizedGiven(jobs, total.value)))
  {
    hide Give, EnergiesOf, TotalEnergy, GeneralizedGiven;
    result := [];
    var total := TotalEnergy(monitor);
    if total.Some? {
      result := GivePortions(dc, jobs, total.value);
    } else if jobs != [] {
      dc.rowstatus := FAULTY;
      return [dc];
    }
    dc.rowstatus := PROCESSED;
    result := result + [dc];
  }

  // ---------------------------------------------------------------- one step for each level

  function LevelWeights(levels: seq<seq<JobData>>): nat {
    if levels == [] then 0 else LevelWeights(levels[..|levels|-1]) + TotalWeight(levels[|levels|-1])
  }

  /** The energy of each level: that of its step, and a share of the rest. */
  function LevelEnergies(levels: seq<seq<JobData>>, steps: seq<real>, extern: real): (r: seq<real>)
    requires |levels| == |steps| && LevelWeights(levels) > 0
    ensures |r| == |levels|
  {
    seq(|levels|, i requires 0 <= i < |levels| =>
      WithShare(steps[i], Share(TotalWeight(levels[i]), LevelWeights(levels)), extern))
  }

  /** What the jobs of a level are given of its energy. */
  function LevelGiven(level: seq<JobData>, energy: real): (r: seq<real>)
    ensures |r| == |level|
  {
    var total := AtLeastOne(TotalWeight(level));
    seq(|level|, i requires 0 <= i < |level| => Portion(Share(level[i].computationalWeight, total), energy))
  }

  ghost function GiveLevels(st: Energies, dc: JobData, levels: seq<seq<JobData>>, energies: seq<real>): Energies
    requires |levels| == |energies|
  {
    if levels == [] then st
    else
      var level, energy := levels[|levels|-1], energies[|energies|-1];
      Give(GiveLevels(st, dc, levels[..|levels|-1], energies[..|energies|-1]), dc, level, LevelGiven(level, energy))
  }

  /** The weights of a level can be divided by their sum. */
  predicate Divisible(level: seq<JobData>) { level == [] || TotalWeight(level) > 0 }

  /** The number of levels before the first one that has no weight. */
  function Leading(levels: seq<seq<JobData>>): (n: nat)
    ensures n <= |levels|
  {
    if levels == [] then 0
    else
      var n := Leading(levels[..|levels|-1]);
      if n == |levels| - 1 && Divisible(levels[n]) then n + 1 else n
  }

  lemma {:induction false} LeadingStops(levels: seq<seq<JobData>>, i: nat)
    requires i < |levels| && Leading(levels[..i]) == i && !Divisible(levels[i])
    ensures Leading(levels) == i
  {
    if |levels| > i + 1 {
      assert levels[..|levels|-1][..i] == levels[..i];
      LeadingStops(levels[..|levels|-1], i);
    }
  }

  method SumLevelWeights(levels: seq<seq<JobData>>) returns (weights: seq<nat>, total: nat)
    ensures total == LevelWeights(levels) && |weights| == |levels|
    ensures forall i :: 0 <= i < |levels| ==> weights[i] == TotalWeight(levels[i])
  {
    weights, total := [], 0;
    for i := 0 to |levels|
      invariant total == LevelWeights(levels[..i]) && |weights| == i
      invariant forall k :: 0 <= k < i ==> weights[k] == TotalWeight(levels[k])
    {
      assert levels[..i + 1][..i] == levels[..i];
      var weight := SumWeights(levels[i]);
      total := total + weight;
      weights := weights + [weight];
    }
    assert levels[..|levels|] == levels;
  }

  /** `get_comp_weight_per_group_of_job_dcs`. */
  method GroupWeights(jobs: seq<JobData>) returns (weights: Option<seq<real>>)
    ensures weights.None? <==> !Divisible(jobs)
    ensures weights.Some? ==> |weights.value| == |jobs| && forall i :: 0 <= i < |jobs| ==>
      weights.value[i] == Share(jobs[i].computationalWeight, AtLeastOne(TotalWeight(jobs)))
  {
    var total := SumWeights(jobs);
    if total == 0 { return if jobs == [] then Some([]) else None; }
    weights := Some(seq(|jobs|, i requires 0 <= i < |jobs| => Share(jobs[i].computationalWeight, total)));
  }

  method GiveLevel(dc: JobData, jobs: seq<JobData>, weights: seq<real>, energy: real, ghost all: set<JobData>)
    requires dc in all && (forall j :: j in jobs ==> j in all) && |weights| == |jobs|
    requires forall i :: 0 <= i < |jobs| ==>
      weights[i] == Share(jobs[i].computationalWeight, AtLeastOne(TotalWeight(jobs)))
    modifies all`energy, all`requireUpdate
    ensures EnergiesOf(all) == Give(old(EnergiesOf(all)), dc, jobs, LevelGiven(jobs, energy))
  {
    ghost var st, given := EnergiesOf(all), LevelGiven(jobs, energy);
    hide Give, GiveOne, Portion, Share, TotalWeight, EnergiesOf;
    GiveNone(st, dc, jobs, given);
    for i := 0 to |jobs|
      invariant EnergiesOf(all) == Give(st, dc, jobs[..i], given[..i])
    {
      GiveOneMore(st, dc, jobs, given, i);
      GiveEnergy(dc, jobs[i], Portion(weights[i], energy), all);
    }
    assert jobs[..|jobs|] == jobs && given[..|jobs|] == given;
  }

  lemma GiveLevelsOneMore(st: Energies, dc: JobData, levels: seq<seq<JobData>>, energies: seq<real>, i: nat)
    requires |levels| == |energies| && i < |levels|
    ensures GiveLevels(st, dc, levels[..i + 1], energies[..i + 1])
      == Give(GiveLevels(st, dc, levels[..i], energies[..i]), dc, levels[i], LevelGiven(levels[i], energies[i]))
    ensures Flat(levels[..i + 1]) == Flat(levels[..i]) + levels[i]
    ensures Leading(levels[..i]) == i && Divisible(levels[i]) ==> Leading(levels[..i + 1]) == i + 1
  {
    assert levels[..i + 1][..i] == levels[..i] && energies[..i + 1][..i] == energies[..i];
  }

  /** The energy of each level, for a total weight that can be divided by. */
  method EnergyPerLevel(levels: seq<seq<JobData>>, monitor: Monitor) returns (energies: Option<seq<real>>)
    requires |levels| == |monitor.steps|
    ensures energies.Some? <==> LevelWeights(levels) > 0 && monitor.extern.Some?
    ensures energies.Some? ==> energies.value == LevelEnergies(levels, monitor.steps, monitor.extern.value)
  {
    var weights, total := SumLevelWeights(levels);
    if total == 0 || monitor.extern.None? { return None; }
    energies := Some(seq(|levels|, i requires 0 <= i < |levels| =>
      WithShare(monitor.steps[i], Share(weights[i], total), monitor.extern.value)));
  }

  /** The levels are given their energies, up to the first one without weight. */
  method GiveAllLevels(dc: JobData, levels: seq<seq<JobData>>, energies: seq<real>, ghost all: set<JobData>)
    returns (result: Option<seq<JobData>>)
    requires |levels| == |energies| && dc in all && forall j :: j in Flat(levels) ==> j in all
    modifies all`energy, all`requireUpdate
    ensures var n := Leading(levels);
      && EnergiesOf(all) == GiveLevels(old(EnergiesOf(all)), dc, levels[..n], energies[..n])
      && result == if n == |levels| then Some(Flat(levels)) else None
  {
    hide Give, GiveOne, LevelGiven, TotalWeight, EnergiesOf, Divisible, Share;
    ghost var st := EnergiesOf(all);
    var jobs := [];
    for i := 0 to |levels|
      invariant Leading(levels[..i]) == i && jobs == Flat(levels[..i])
      invariant EnergiesOf(all) == GiveLevels(st, dc, levels[..i], energies[..i])
    {
      GiveLevelsOneMore(st, dc, levels, energies, i);
      var weights := GroupWeights(levels[i]);
      if weights.None? {
        LeadingStops(levels, i);
        return None;
      }
      forall j | j in levels[i] ensures j in all { FlatExactly(levels, j); }
      GiveLevel(dc, levels[i], weights.value, energies[i], all);
      jobs := jobs + levels[i];
    }
    assert levels[..|levels|] == levels;
    result := Some(jobs);
  }

  /** From energies `st` to `st'`: dividing by a weight of zero makes the job FAULTY after the
      levels before have got their energy. */
  ghost predicate LevelsDistributed(dc: JobData, levels: seq<seq<JobData>>, monitor: Monitor, st: Energies,
                                    st': Energies,
                                    result: seq<JobData>, status: RowStatus)
    requires |levels| == |monitor.steps|
  {
    if LevelWeights(levels) == 0 || monitor.extern.None? then result == [dc] && st' == st && status == FAULTY
    else
      var n, energies := Leading(levels), LevelEnergies(levels, monitor.steps, monitor.extern.value);
      && st' == GiveLevels(st, dc, levels[..n], energies[..n])
      && (if n == |levels| then result == Flat(levels) + [dc] && status == PROCESSED
          else result == [dc] && status == FAULTY)
  }

  /** `TwoDimWrapperDistributionStrategy.apply_distribution`. */
  method TwoDimDistribution(dc: JobData, jobs: seq<JobData>, monitor: Monitor)
    returns (result: seq<JobData>, jobsPerLevel: seq<seq<JobData>>)
    requires LevelsEnd(jobs)
    modifies jobs, dc
    ensures AreLevels(jobs, jobsPerLevel)
    ensures var st, st' := old(EnergiesOf(All(dc, jobs))), EnergiesOf(All(dc, jobs));
      if |jobsPerLevel| != |monitor.steps| then result == [] && st' == st && dc.rowstatus == old(dc.rowstatus)
      else LevelsDistributed(dc, jobsPerLevel, monitor, st, st', result, dc.rowstatus)
  {
    jobsPerLevel := GetJobsPerLevel(jobs);
    LevelsAmong(dc, jobs, jobsPerLevel);
    hide LevelsEnd, AreLevels, EnergiesOf, LevelsDistributed, All, Flat;
    if |jobsPerLevel| != |monitor.steps| { return [], jobsPerLevel; }
    result := DistributeLevels(dc, jobsPerLevel, monitor, All(dc, jobs));
  }

  method DistributeLevels(dc: JobData, levels: seq<seq<JobData>>, monitor: Monitor, ghost all: set<JobData>)
    returns (result: seq<JobData>)
    requires dc in all && (forall j :: j in Flat(levels) ==> j in all) && |levels| == |monitor.steps|
    modifies all`energy, all`requireUpdate, dc`rowstatus
    ensures LevelsDistributed(dc, levels, monitor, old(EnergiesOf(all)), EnergiesOf(all), result, dc.rowstatus)
  {
    hide EnergiesOf, GiveLevels, Leading, LevelEnergies, LevelWeights, Flat;
    var energies := EnergyPerLevel(levels, monitor);
    if energies.None? {
      dc.rowstatus := FAULTY;
      return [dc];
    }
    var given := GiveAllLevels(dc, levels, energies.value, all);
    if given.None? {
      dc.rowstatus := FAULTY;
      return [dc];
    }
    dc.rowstatus := PROCESSED;
    result := given.value + [dc];
  }

  lemma LevelsAmong(dc: JobData, jobs: seq<JobData>, levels: seq<seq<JobData>>)
    requires AreLevels(jobs, levels)
    ensures dc in All(dc, jobs) && (forall j :: j in Flat(levels) ==> j in All(dc, jobs))
    ensures forall j :: j in All(dc, jobs) ==> j == dc || j in jobs
  {
    forall j | j in Flat(levels) ensures j in jobs {
      FlatExactly(levels, j);
      var k :| 0 <= k < |levels| && j in levels[k];
      LevelsHoldJobs(jobs, k, j);
    }
  }
}

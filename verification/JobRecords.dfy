/** The records of jobs in the history of an experiment, and the rounding of their energy.
    Numbers are exact. */
module JobRecords {

  /** `round`: the nearest integer, and the even one of two equally near. */
  function Round(x: real): int {
    var below := x.Floor;
    var rest := x - below as real;
    if rest < 0.5 then below
    else if rest > 0.5 then below + 1
    else if below % 2 == 0 then below else below + 1
  }

  function Round2(x: real): real { Round(x * 100.0) as real / 100.0 }

  function Round4(x: real): real { Round(x * 10000.0) as real / 10000.0 }

  /** No integer is nearer, and of two equally near the even one is taken. */
  lemma RoundExactly(x: real)
    ensures x - 0.5 <= Round(x) as real <= x + 0.5
    ensures Round(x) as real == x - 0.5 || Round(x) as real == x + 0.5 ==> Round(x) % 2 == 0
  {}

  /** `x` is within `d` of `y`. */
  predicate Near(x: real, y: real, d: real) { y - d <= x <= y + d }

  lemma NearAdds(a: real, b: real, d: real, x: real, y: real, e: real)
    requires Near(a, b, d) && Near(x, y, e)
    ensures Near(a + x, b + y, d + e)
  {}

  lemma NearTwice(a: real, b: real, c: real, d: real, e: real)
    requires Near(a, b, d) && Near(b, c, e)
    ensures Near(a, c, d + e)
  {}

  lemma NearTimes(x: real, y: real, d: real, e: real)
    requires Near(x, y, d) && e >= 0.0
    ensures Near(x * e, y * e, d * e)
  {
    assert (y - d) * e <= x * e <= (y + d) * e;
  }

  lemma Round2IsNear(x: real)
    ensures Near(Round2(x), x, 0.005)
    ensures Round2(Round2(x)) == Round2(x)
    ensures x >= 0.0 ==> Round2(x) >= 0.0
  {}

  lemma Round4IsNear(x: real)
    ensures Near(Round4(x), x, 0.00005)
    ensures x >= 0.0 ==> Round4(x) >= 0.0
  {}

  /** What is too small to be seen in two decimals, or in four: half a unit is rounded to zero. */
  lemma RoundsToZero(x: real)
    requires x >= 0.0
    ensures Round2(x) > 0.0 <==> x > 0.005
    ensures Round4(x) > 0.0 <==> x > 0.00005
  {}

  datatype RowStatus = INITIAL | PROCESSED | FAULTY

  /** What the setter of `energy` leaves: only a positive energy is stored, to two decimals. */
  function Stored(before: real, given: real): real { if given > 0.0 then Round2(given) else before }

  class JobData {
    const jobName: string
    const childrenList: seq<string>
    const computationalWeight: nat
    var energy: real
    /** Whether the stored row has to be updated. */
    var requireUpdate: bool
    var rowstatus: RowStatus

    constructor (jobName: string, childrenList: seq<string>, computationalWeight: nat, energy: real)
      ensures this.jobName == jobName && this.childrenList == childrenList
      ensures this.computationalWeight == computationalWeight && this.energy == Round2(energy)
      ensures rowstatus == INITIAL && !requireUpdate
    {
      this.jobName, this.childrenList, this.computationalWeight := jobName, childrenList, computationalWeight;
      this.energy, rowstatus, requireUpdate := Round2(energy), INITIAL, false;
    }

    /** The setter of `energy`. */
    method SetEnergy(given: real)
      modifies this`energy, this`requireUpdate
      ensures energy == Stored(old(energy), given)
      ensures requireUpdate == (old(requireUpdate) || (given > 0.0 && given != old(energy)))
    {
      if given > 0.0 {
        if given != energy { requireUpdate := true; }
        energy := Round2(given);
      }
    }
  }
}

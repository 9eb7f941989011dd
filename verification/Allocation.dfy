/** The registration of new experiments under the first identifier that is free. */
module Allocation {
  import opened Options
  import opened Identifiers

  datatype Kind = Test | Operational | Evaluation | Standard

  /** What the database answers about the last name used, and whether it can save. */
  datatype Request = Request(kind: Kind, lastName: string, saves: bool)

  /** A name, the empty string, or an error. */
  datatype Outcome = Name(id: string) | Nothing | Error

  /** The k-th identifier tried. */
  ghost function Candidate(start: string, k: nat): string
    requires IsValid(start)
  {
    if k == 0 then start
    else
      DecodeValid(start);
      Encoded(Value(start).value + k)
  }

  ghost predicate FirstFree(start: string, existing: set<string>, k: nat)
    requires IsValid(start)
  {
    Candidate(start, k) !in existing && forall i: nat :: i < k ==> Candidate(start, i) in existing
  }

  /** The k-th identifier tried has the k-th number from the start. */
  lemma CandidateValue(start: string, k: nat)
    requires IsValid(start)
    ensures Value(start).Some? && IsValid(Candidate(start, k))
    ensures Value(Candidate(start, k)) == Some(Value(start).value + k)
    ensures k > 0 ==> Canonical(Candidate(start, k))
  {
    DecodeValid(start);
    if k > 0 {
      var n := Value(start).value + k;
      EncodedIsCanonical(n);
      DecodeEncode(n);
      hide Encoded, Value, Base36Decode, AllDigits, IsLower;
      DecodeValid(Encoded(n));
    }
  }

  /** A canonical identifier with a number from the start on is tried. */
  lemma CanonicalIsTried(start: string, id: string)
    requires Canonical(start) && Canonical(id)
    ensures Value(start).Some? && Value(id).Some?
    ensures Value(id).value >= Value(start).value ==> Candidate(start, Value(id).value - Value(start).value) == id
  {
    hide Encoded, Value, Base36Decode, AllDigits, IsLower;
    DecodeValid(start);
    DecodeValid(id);
    EncodeDecode(start);
    EncodeDecode(id);
  }

  lemma CanonicalIsLater(start: string, k: nat, id: string)
    requires IsValid(start) && Canonical(id) && k > 0
    ensures Value(start).Some? && Value(id).Some?
    ensures Value(id).value == Value(start).value + k ==> Candidate(start, k) == id
  {
    hide Encoded, Value, Base36Decode, AllDigits, IsLower;
    DecodeValid(start);
    DecodeValid(id);
    EncodeDecode(id);
  }

  lemma CanonicalIsPositive(s: string)
    requires Canonical(s)
    ensures Value(s).Some? && Value(s).value > 0
  {
    hide Value, AllDigits, IsLower, Base36Decode;
    DecodeValid(s);
    EncodeDecode(s);
    assert |s| >= 4;
  }

  /** No unused identifier with a larger number than the start has a smaller one than the
      identifier found; for a canonical start, and for 0000, none from the start on. */
  lemma FirstFreeIsLeast(start: string, existing: set<string>, k: nat, id: string)
    requires IsValid(start) && FirstFree(start, existing, k)
    requires Canonical(id) && id !in existing
    ensures Value(start).Some? && Value(id).Some? && Value(Candidate(start, k)).Some?
    ensures Value(id).value > Value(start).value ==> Value(id).value >= Value(Candidate(start, k)).value
    ensures Value(id).value >= Value(start).value && (Canonical(start) || start == "0000") ==>
      Value(id).value >= Value(Candidate(start, k)).value
  {
    CanonicalIsPositive(id);
    if start == "0000" { ZeroIsZero(); }
    hide Value, Candidate, AllDigits, IsLower;
    DecodeValid(start);
    CandidateValue(start, k);
    assert forall i: nat :: i < k ==> Candidate(start, i) != id;
    if Value(id).value > Value(start).value { CanonicalIsLater(start, Value(id).value - Value(start).value, id); }
    if Canonical(start) { CanonicalIsTried(start, id); }
  }

  lemma ZeroIsZero()
    ensures Value("0000") == Some(0)
  {
    assert "0000"[..3] == "000" && "000"[..2] == "00" && "00"[..1] == "0" && "0"[..0] == "";
    assert Value("0") == Some(0) && Value("00") == Some(0) && Value("000") == Some(0);
  }

  class Registry {
    var existing: set<string>

    constructor (existing: set<string>)
      ensures this.existing == existing
    {
      this.existing := existing;
    }

    /** The search of `new_experiment`: at most one test more than there are identifiers. `k`
        counts the tests that find an identifier in use. */
    method FindFree(start: string) returns (id: string, k: nat)
      requires IsValid(start)
      ensures FirstFree(start, existing, k) && id == Candidate(start, k) && k <= |existing|
    {
      hide Encoded, Value, IsValid, Canonical, Base36Decode;
      id, k := start, 0;
      ghost var tried: set<string> := {};
      while id in existing
        invariant id == Candidate(start, k) && tried <= existing && |tried| == k
        invariant forall x :: x in tried <==> exists i: nat :: i < k && x == Candidate(start, i)
        decreases |existing| - k
      {
        CandidateValue(start, k);
        CandidateValue(start, k + 1);
        forall i: nat | i < k ensures Candidate(start, i) != id { CandidateValue(start, i); }
        assert id !in tried;
        Fits(tried + {id}, existing);
        tried := tried + {id};
        var next := NextExperimentId(id);
        id, k := next.value, k + 1;
      }
      Fits(tried, existing);
      forall i: nat | i < k ensures Candidate(start, i) in existing { assert Candidate(start, i) in tried; }
    }

    /** `new_experiment`. An identifier that cannot be followed by another raises an error only
        when it is already used. */
    method NewExperiment(q: Request) returns (r: Outcome, k: nat)
      modifies this
      ensures q.lastName == "" ==> r == Nothing
      ensures q.lastName != "" ==>
        var start := if q.lastName != "empty" then q.lastName
          else if q.kind.Test? then "t000" else if q.kind.Operational? then "o000"
          else if q.kind.Evaluation? then "e000" else "a000";
        if IsValid(start) then
          && FirstFree(start, old(existing), k) && k <= |old(existing)|
          && r == if q.saves then Name(Candidate(start, k)) else Nothing
        else
          r == if start in old(existing) then Error else if q.saves then Name(start) else Nothing
      ensures existing == if r.Name? then old(existing) + {r.id} else old(existing)
      ensures r.Name? ==> r.id !in old(existing)
    {
      k := 0;
      if q.lastName == "" { return Nothing, k; }
      var id := q.lastName;
      if id == "empty" {
        match q.kind {
          case Test => id := "t000";
          case Operational => id := "o000";
          case Evaluation => id := "e000";
          case Standard => id := "a000";
        }
      }
      if id in existing {
        if !IsValid(id) { return Error, k; }
        id, k := FindFree(id);
      }
      if !q.saves { return Nothing, k; }
      existing := existing + {id};
      r := Name(id);
    }

    /** Any sequence of requests gives identifiers that all differ, and that were not used. */
    method NewExperiments(qs: seq<Request>) returns (names: seq<string>)
      modifies this
      ensures forall i, j :: 0 <= i < j < |names| ==> names[i] != names[j]
      ensures forall i :: 0 <= i < |names| ==> names[i] !in old(existing)
      ensures existing == old(existing) + set n | n in names
    {
      names := [];
      for i := 0 to |qs|
        invariant forall i, j :: 0 <= i < j < |names| ==> names[i] != names[j]
        invariant forall i :: 0 <= i < |names| ==> names[i] !in old(existing)
        invariant existing == old(existing) + set n | n in names
      {
        var r, k := NewExperiment(qs[i]);
        if r.Name? { names := names + [r.id]; }
      }
    }
  }

  lemma Fits(s: set<string>, t: set<string>)
    requires s <= t
    ensures |s| <= |t|
  {
    assert t == s + (t - s);
  }
}

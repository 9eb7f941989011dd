/** The expansion of texts that refer to each other, given as a store of texts under names. */
module Expansion {
  import opened ConfigTree
  import opened Digraph
  import opened Placeholders

  predicate Distinct(order: seq<Path>) {
    order == [] || (order[0] !in order[1..] && Distinct(order[1..]))
  }

  // ---------------------------------------------------------------- simultaneous substitution

  type Store = map<Path, Tokens>

  ghost predicate Live(s: Store, r: Path) { r in s && s[r] != [] }

  ghost function LiveRefs(s: Store, ts: Tokens): set<Path> {
    set r | r in RefsIn(ts) && Live(s, r)
  }

  ghost function InlineToken(s: Store, tok: Token): Tokens {
    if tok.Ref? && Live(s, tok.path) then s[tok.path] else [tok]
  }

  /** Every live reference replaced, at once, by the text it names. */
  ghost function Inline(s: Store, ts: Tokens): Tokens {
    if ts == [] then [] else InlineToken(s, ts[0]) + Inline(s, ts[1..])
  }

  lemma {:induction false} InlineConcat(s: Store, a: Tokens, b: Tokens)
    ensures Inline(s, a + b) == Inline(s, a) + Inline(s, b)
  {
    if a == [] {
      assert a + b == b;
    } else {
      assert (a + b)[1..] == a[1..] + b;
      InlineConcat(s, a[1..], b);
    }
  }

  lemma InlineSnoc(s: Store, ts: Tokens, tok: Token)
    ensures Inline(s, ts + [tok]) == Inline(s, ts) + InlineToken(s, tok)
  {
    InlineConcat(s, ts, [tok]);
    assert Inline(s, [tok]) == InlineToken(s, tok) + [];
  }

  // ---------------------------------------------------------------- full expansion

  /** The recursive expansion of a text, `depth` references deep. */
  ghost function Expand(s: Store, depth: nat, ts: Tokens): Tokens
    decreases depth, |ts|
  {
    if ts == [] then []
    else
      (if ts[0].Ref? && Live(s, ts[0].path) && depth > 0 then Expand(s, depth - 1, s[ts[0].path]) else [ts[0]])
      + Expand(s, depth, ts[1..])
  }

  /** A ranking: live references go from higher to lower rank. */
  ghost predicate Ranked(s: Store, rank: map<Path, nat>) {
    && s.Keys <= rank.Keys
    && forall n :: n in s ==> Below(s, rank, s[n], rank[n])
  }

  ghost predicate Below(s: Store, rank: map<Path, nat>, ts: Tokens, bound: nat)
    requires s.Keys <= rank.Keys
  {
    forall r :: r in LiveRefs(s, ts) ==> rank[r] < bound
  }

  ghost predicate TwoBelow(s: Store, rank: map<Path, nat>, ts: Tokens, bound: nat)
    requires s.Keys <= rank.Keys
  {
    forall r :: r in LiveRefs(s, ts) ==> rank[r] + 1 < bound
  }

  /** Once every rank is below the depth, more depth expands nothing more. */
  lemma {:induction false} DepthSuffices(s: Store, rank: map<Path, nat>, d: nat, e: nat, ts: Tokens)
    requires Ranked(s, rank) && d <= e && Below(s, rank, ts, d)
    ensures Expand(s, d, ts) == Expand(s, e, ts)
    decreases d, |ts|
  {
    if ts != [] {
      if ts[0].Ref? && Live(s, ts[0].path) {
        assert ts[0].path in LiveRefs(s, ts);
        DepthSuffices(s, rank, d - 1, e - 1, s[ts[0].path]);
      }
      DepthSuffices(s, rank, d, e, ts[1..]);
    }
  }

  lemma {:induction false} ExpandConcat(s: Store, d: nat, a: Tokens, b: Tokens)
    ensures Expand(s, d, a + b) == Expand(s, d, a) + Expand(s, d, b)
    decreases |a|
  {
    if a == [] {
      assert a + b == b;
    } else {
      assert (a + b)[1..] == a[1..] + b;
      ExpandConcat(s, d, a[1..], b);
    }
  }

  /** Inlining one level keeps the full expansion. */
  lemma {:induction false} InlineKeepsExpansion(s: Store, rank: map<Path, nat>, d: nat, ts: Tokens)
    requires Ranked(s, rank) && Below(s, rank, ts, d)
    ensures Expand(s, d, Inline(s, ts)) == Expand(s, d, ts)
    decreases |ts|
  {
    if ts != [] {
      InlineKeepsExpansion(s, rank, d, ts[1..]);
      var first, rest := InlineToken(s, ts[0]), Inline(s, ts[1..]);
      ExpandConcat(s, d, first, rest);
      if ts[0].Ref? && Live(s, ts[0].path) {
        assert ts[0].path in LiveRefs(s, ts);
        DepthSuffices(s, rank, d - 1, d, s[ts[0].path]);
      } else {
        assert Expand(s, d, [ts[0]]) == [ts[0]] + Expand(s, d, []);
      }
    }
  }

  /** Inlining only leaves references of strictly lower rank than the ones it replaced. */
  lemma {:induction false} InlineLowers(s: Store, rank: map<Path, nat>, d: nat, ts: Tokens)
    requires Ranked(s, rank) && Below(s, rank, ts, d)
    ensures TwoBelow(s, rank, Inline(s, ts), d)
    ensures ts != [] ==> Inline(s, ts) != []
    decreases |ts|
  {
    if ts != [] {
      InlineLowers(s, rank, d, ts[1..]);
      var first, rest := InlineToken(s, ts[0]), Inline(s, ts[1..]);
      RefsInConcat(first, rest);
      if ts[0].Ref? && Live(s, ts[0].path) {
        assert ts[0].path in LiveRefs(s, ts);
      } else {
        assert RefsIn([ts[0]]) == (if ts[0].Ref? then {ts[0].path} else {}) + RefsIn([]);
      }
    }
  }

  lemma NoLiveRefs(s: Store, ts: Tokens)
    requires LiveRefs(s, ts) == {} && ts != []
    ensures LiveRefs(s, ts[1..]) == {} && !(ts[0].Ref? && Live(s, ts[0].path))
  {
    assert LiveRefs(s, ts[1..]) <= LiveRefs(s, ts);
    if ts[0].Ref? { assert ts[0].path in RefsIn(ts); }
  }

  lemma {:induction false} InlineOfSettled(s: Store, ts: Tokens)
    requires LiveRefs(s, ts) == {}
    ensures Inline(s, ts) == ts
  {
    if ts != [] {
      NoLiveRefs(s, ts);
      InlineOfSettled(s, ts[1..]);
    }
  }

  /** Inlining changes exactly the texts with a live reference. */
  lemma InlineChangesLiveTexts(s: Store, rank: map<Path, nat>, ts: Tokens)
    requires Ranked(s, rank)
    ensures Inline(s, ts) != ts <==> LiveRefs(s, ts) != {}
  {
    if LiveRefs(s, ts) == {} {
      InlineOfSettled(s, ts);
    } else {
      var top := HighestRanked(LiveRefs(s, ts), rank);
      InlineLowers(s, rank, rank[top] + 1, ts);
    }
  }

  lemma {:induction false} HighestRanked(names: set<Path>, rank: map<Path, nat>) returns (top: Path)
    requires names != {} && names <= rank.Keys
    ensures top in names && forall q :: q in names ==> rank[q] <= rank[top]
  {
    top :| top in names;
    if names != {top} {
      var other := HighestRanked(names - {top}, rank);
      if rank[other] > rank[top] { top := other; }
    }
  }

  // ---------------------------------------------------------------- passes over the texts

  /** One variable visited, as an update of the texts. */
  ghost function Step(s: Store, n: Path): Store {
    if n in s then s[n := Inline(s, s[n])] else s
  }

  ghost function PassOver(s: Store, order: seq<Path>): Store {
    if order == [] then s else PassOver(Step(s, order[0]), order[1..])
  }

  ghost predicate SameLive(s: Store, s': Store) {
    s'.Keys == s.Keys && forall r :: Live(s', r) <==> Live(s, r)
  }

  lemma StepKeeps(s: Store, rank: map<Path, nat>, n: Path)
    requires Ranked(s, rank)
    ensures Ranked(Step(s, n), rank) && SameLive(s, Step(s, n))
  {
    if n in s {
      InlineLowers(s, rank, rank[n], s[n]);
      var s' := Step(s, n);
      assert SameLive(s, s');
      forall ts ensures LiveRefs(s', ts) == LiveRefs(s, ts) {}
    }
  }

  lemma {:induction false} PassKeeps(s: Store, rank: map<Path, nat>, order: seq<Path>)
    requires Ranked(s, rank)
    ensures Ranked(PassOver(s, order), rank) && SameLive(s, PassOver(s, order))
  {
    if order != [] {
      StepKeeps(s, rank, order[0]);
      PassKeeps(Step(s, order[0]), rank, order[1..]);
    }
  }

  lemma SameLiveRefs(s: Store, s': Store, ts: Tokens)
    requires SameLive(s, s')
    ensures LiveRefs(s', ts) == LiveRefs(s, ts)
  {}

  /** Writing back one inlined text changes the full expansion of no text. */
  lemma {:induction false} StepKeepsExpansion(s: Store, rank: map<Path, nat>, n: Path, d: nat, ts: Tokens)
    requires Ranked(s, rank) && n in s && Below(s, rank, ts, d)
    ensures Expand(Step(s, n), d, ts) == Expand(s, d, ts)
    decreases d, |ts|
  {
    var s' := Step(s, n);
    if ts != [] {
      if ts[0].Ref? {
        var r := ts[0].path;
        StepKeeps(s, rank, n);
        if Live(s, r) {
          assert r in LiveRefs(s, ts);
          if r == n {
            InlineKeepsExpansion(s, rank, d - 1, s[n]);
            InlineLowers(s, rank, rank[n], s[n]);
          }
          StepKeepsExpansion(s, rank, n, d - 1, s'[r]);
        }
      }
      StepKeepsExpansion(s, rank, n, d, ts[1..]);
    }
  }

  lemma {:induction false} PassLeavesOthers(s: Store, order: seq<Path>, n: Path)
    requires n in s && n !in order
    ensures n in PassOver(s, order) && PassOver(s, order)[n] == s[n]
  {
    if order != [] { PassLeavesOthers(Step(s, order[0]), order[1..], n); }
  }

  /** A visited text refers two ranks down at most, and has changed exactly when it had a live
      reference. */
  lemma {:induction false} PassVisits(s: Store, rank: map<Path, nat>, order: seq<Path>, n: Path)
    requires Ranked(s, rank) && n in s && n in order
    requires Distinct(order)
    ensures n in PassOver(s, order) && TwoBelow(s, rank, PassOver(s, order)[n], rank[n])
    ensures PassOver(s, order)[n] != s[n] <==> LiveRefs(s, s[n]) != {}
    decreases |order|
  {
    var first, rest := order[0], order[1..];
    var s1 := Step(s, first);
    if n == first {
      PassLeavesOthers(s1, rest, n);
      InlineLowers(s, rank, rank[n], s[n]);
      InlineChangesLiveTexts(s, rank, s[n]);
    } else {
      StepKeeps(s, rank, first);
      PassVisits(s1, rank, rest, n);
      SameLiveRefs(s, s1, PassOver(s, order)[n]);
      SameLiveRefs(s, s1, s[n]);
    }
  }

  ghost predicate Settled(s: Store) {
    forall n :: n in s ==> LiveRefs(s, s[n]) == {}
  }

  /** Every text with a live reference is visited. */
  ghost predicate VisitsLive(s: Store, order: seq<Path>) {
    && (forall n :: n in s && LiveRefs(s, s[n]) != {} ==> n in order)
    && Distinct(order)
  }

  lemma {:induction false} SettledExpandsToItself(s: Store, d: nat, ts: Tokens)
    requires LiveRefs(s, ts) == {}
    ensures Expand(s, d, ts) == ts
    decreases |ts|
  {
    if ts != [] {
      NoLiveRefs(s, ts);
      SettledExpandsToItself(s, d, ts[1..]);
    }
  }

  lemma UnchangedIsSettled(s: Store, rank: map<Path, nat>, order: seq<Path>)
    requires Ranked(s, rank) && VisitsLive(s, order)
    ensures PassOver(s, order) == s <==> Settled(s)
  {
    forall n | n in s && n in order
      ensures n in PassOver(s, order) && (PassOver(s, order)[n] != s[n] <==> LiveRefs(s, s[n]) != {})
    {
      PassVisits(s, rank, order, n);
    }
    if Settled(s) {
      PassKeeps(s, rank, order);
      forall n | n in s && n !in order ensures PassOver(s, order)[n] == s[n] { PassLeavesOthers(s, order, n); }
    }
  }

  ghost function Lowered(rank: map<Path, nat>): map<Path, nat> {
    map n | n in rank :: if rank[n] == 0 then 0 else rank[n] - 1
  }

  /** After a pass every rank can be lowered by one. */
  lemma PassLowersRanks(s: Store, rank: map<Path, nat>, order: seq<Path>)
    requires Ranked(s, rank) && VisitsLive(s, order)
    ensures Ranked(PassOver(s, order), Lowered(rank)) && VisitsLive(PassOver(s, order), order)
  {
    var s' := PassOver(s, order);
    PassKeeps(s, rank, order);
    forall n | n in s
      ensures LiveRefs(s', s'[n]) == LiveRefs(s, s'[n])
      ensures LiveRefs(s, s'[n]) != {} ==> n in order
      ensures LiveRefs(s, s'[n]) != {} ==> TwoBelow(s, rank, s'[n], rank[n])
    {
      SameLiveRefs(s, s', s'[n]);
      if n in order { PassVisits(s, rank, order, n); } else { PassLeavesOthers(s, order, n); }
    }
  }

  lemma RanksAfterPass(s: Store, rank: map<Path, nat>, order: seq<Path>, top: nat)
    requires Ranked(s, rank) && VisitsLive(s, order) && PassOver(s, order) != s
    requires forall n :: n in s ==> rank[n] <= top
    ensures top > 0 && forall n :: n in s ==> n in Lowered(rank) && Lowered(rank)[n] <= top - 1
  {
    UnchangedIsSettled(s, rank, order);
    var n :| n in s && LiveRefs(s, s[n]) != {};
    var q :| q in LiveRefs(s, s[n]);
    assert rank[q] < rank[n];
  }

  // ---------------------------------------------------------------- acyclic references

  ghost function RefGraph(s: Store): Graph<Path> {
    map n | n in s :: LiveRefs(s, s[n])
  }

  ghost function FullExpansion(s: Store, ts: Tokens): Tokens {
    Expand(s, |s|, ts)
  }

  ghost function Heights(s: Store): (rank: map<Path, nat>)
    requires Acyclic(RefGraph(s))
  {
    map n | n in s :: Height(RefGraph(s), n)
  }

  lemma HeightsRank(s: Store)
    requires Acyclic(RefGraph(s))
    ensures Ranked(s, Heights(s)) && forall n :: n in s ==> Heights(s)[n] < |s|
  {
    var g := RefGraph(s);
    assert g.Keys == s.Keys;
    forall n, m | n in s && m in LiveRefs(s, s[n]) ensures Heights(s)[m] < Heights(s)[n] {
      assert m in g[n];
      HeightRanks(g, n, m);
    }
    forall n | n in s ensures Heights(s)[n] < |s| { HeightFitsGraph(g, n); }
  }

  /** Full expansion is the recursive one: a live reference stands for the full expansion of
      the text it names, an empty or missing one stays where it is. */
  lemma FullExpansionUnfolds(s: Store, r: Path)
    requires Acyclic(RefGraph(s))
    ensures FullExpansion(s, [Ref(r)]) == if Live(s, r) then FullExpansion(s, s[r]) else [Ref(r)]
  {
    var one: Tokens := [Ref(r)];
    assert one[1..] == [] && Expand(s, |s|, []) == [];
    if Live(s, r) {
      assert |s| > 0;
      OneLessSuffices(s, r);
      assert Expand(s, |s|, one) == Expand(s, |s| - 1, s[r]) + [];
    }
  }

  lemma OneLessSuffices(s: Store, r: Path)
    requires Acyclic(RefGraph(s)) && r in s && |s| > 0
    ensures Expand(s, |s| - 1, s[r]) == Expand(s, |s|, s[r])
  {
    HeightsRank(s);
    DepthIsEnough(s, Heights(s), r);
  }

  /** With ranks below the number of texts, that number is depth enough, even less one. */
  lemma DepthIsEnough(s: Store, rank: map<Path, nat>, r: Path)
    requires Ranked(s, rank) && r in s && |s| > 0 && forall n :: n in s ==> rank[n] < |s|
    ensures Expand(s, |s| - 1, s[r]) == Expand(s, |s|, s[r]) == Expand(s, rank[r], s[r])
  {
    DepthSuffices(s, rank, rank[r], |s| - 1, s[r]);
    DepthSuffices(s, rank, rank[r], |s|, s[r]);
  }

  lemma FullExpansionConcat(s: Store, a: Tokens, b: Tokens)
    ensures FullExpansion(s, a + b) == FullExpansion(s, a) + FullExpansion(s, b)
  {
    ExpandConcat(s, |s|, a, b);
  }
}

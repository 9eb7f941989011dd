/** The whole loop of substitution, in a configuration or in a part of it while variables of other
    parts are registered too: it ends with every text, and every element of a list, fully expanded. */
module FullSubstitution {
  import opened Options
  import opened ConfigTree
  import opened Flatten
  import opened Digraph
  import opened Sequences
  import opened Placeholders
  import opened Expansion
  import opened Substitution
  import opened Rewriting

  // ---------------------------------------------------------------- the expanded tree

  /** The tree with every text fully expanded, also within lists. */
  ghost function Rewritten(t: Node, s: Store): Node {
    match t
    case Text(tokens) => Text(FullExpansion(s, tokens))
    case Items(items) => Items(seq(|items|, i requires 0 <= i < |items| => RewrittenItem(items[i], s)))
    case Section(entries) => Section(map k | k in entries :: Rewritten(entries[k], s))
  }

  ghost function RewrittenItem(n: Node, s: Store): Node {
    if n.Text? then Text(FullExpansion(s, n.tokens)) else n
  }

  lemma {:induction false} RewrittenLeafAt(t: Node, s: Store, p: Path)
    ensures LeafAt(Rewritten(t, s), p) == if LeafAt(t, p).Some? then Some(Rewritten(LeafAt(t, p).value, s)) else None
    decreases |p|
  {
    if p != [] && t.Section? && p[0] in t.entries { RewrittenLeafAt(t.entries[p[0]], s, p[1..]); }
  }

  lemma {:induction false} RewrittenPut(t: Node, p: Path, x: Node, s: Store)
    requires LeafAt(t, p).Some? && !x.Section?
    ensures Rewritten(Put(t, p, x), s) == Put(Rewritten(t, s), p, Rewritten(x, s))
    decreases |p|
  {
    if p != [] { RewrittenPut(t.entries[p[0]], p[1..], x, s); }
  }

  /** Ranks that are below the number of the texts. */
  ghost predicate RankedWithin(s: Store, rank: map<Path, nat>) {
    Ranked(s, rank) && forall n :: n in s ==> rank[n] < |s|
  }

  lemma InlineKept(s: Store, rank: map<Path, nat>, ts: Tokens)
    requires RankedWithin(s, rank)
    ensures FullExpansion(s, Inline(s, ts)) == FullExpansion(s, ts)
  {
    InlineKeepsExpansion(s, rank, |s|, ts);
  }

  lemma RewrittenInline(s: Store, rank: map<Path, nat>, leaf: Node)
    requires RankedWithin(s, rank) && !leaf.Section?
    ensures Rewritten(InlineFrom(s, leaf, 0), s) == Rewritten(leaf, s)
  {
    if leaf.Text? {
      InlineKept(s, rank, leaf.tokens);
    } else {
      forall i | 0 <= i < |leaf.items|
        ensures RewrittenItem(InlineFrom(s, leaf, 0).items[i], s) == RewrittenItem(leaf.items[i], s)
      {
        if leaf.items[i].Text? { InlineKept(s, rank, leaf.items[i].tokens); }
      }
      hide RankedWithin, RewrittenItem;
    }
  }

  lemma StepKept(s: Store, rank: map<Path, nat>, n: Path, ts: Tokens)
    requires RankedWithin(s, rank) && n in s
    ensures FullExpansion(Step(s, n), ts) == FullExpansion(s, ts)
  {
    assert Step(s, n).Keys == s.Keys && |Step(s, n).Keys| == |Step(s, n)| && |s.Keys| == |s|;
    StepKeepsExpansion(s, rank, n, |s|, ts);
  }

  lemma {:induction false} RewrittenStep(t: Node, s: Store, rank: map<Path, nat>, n: Path)
    requires RankedWithin(s, rank) && n in s
    ensures Rewritten(t, Step(s, n)) == Rewritten(t, s)
  {
    match t
    case Text(tokens) => StepKept(s, rank, n, tokens);
    case Items(items) =>
      forall i | 0 <= i < |items| ensures RewrittenItem(items[i], Step(s, n)) == RewrittenItem(items[i], s) {
        if items[i].Text? { StepKept(s, rank, n, items[i].tokens); }
      }
      hide RankedWithin, Step, FullExpansion, RewrittenItem;
      assert Rewritten(t, Step(s, n)).items == Rewritten(t, s).items;
    case Section(entries) =>
      forall k | k in entries ensures Rewritten(entries[k], Step(s, n)) == Rewritten(entries[k], s) {
        RewrittenStep(entries[k], s, rank, n);
      }
      hide RankedWithin, Step;
      assert Rewritten(t, Step(s, n)).entries == Rewritten(t, s).entries;
  }

  /** Visiting a variable does not change the expanded tree. */
  lemma VisitKept(t: Node, n: Path, leaf: Node, rank: map<Path, nat>)
    requires LeafAt(t, n) == Some(leaf) && Full(leaf) && RankedWithin(Leaves(t), rank)
    ensures var t' := Put(t, n, InlineFrom(Leaves(t), leaf, 0));
      Leaves(t') == Step(Leaves(t), n) && Rewritten(t', Leaves(t')) == Rewritten(t, Leaves(t))
  {
    var s, leaf' := Leaves(t), InlineFrom(Leaves(t), leaf, 0);
    var t' := Put(t, n, leaf');
    LeavesExactly(t, n);
    ShownInline(s, leaf);
    PutLeaves(t, n, leaf');
    RewrittenStep(t', s, rank, n);
    RewrittenPut(t, n, leaf', s);
    RewrittenInline(s, rank, leaf);
    RewrittenPut(t, n, leaf, s);
    PutSame(t, n);
    hide Leaves, Rewritten, Put, InlineFrom, RankedWithin, LeafAt;
  }

  /** Where nothing is left to substitute, the tree is its own expansion. */
  lemma {:induction false} SettledTree(t: Node, s: Store)
    requires forall p {:trigger LeafAt(t, p)} :: LeafAt(t, p).Some? ==> LiveRefs(s, Shown(LeafAt(t, p).value)) == {}
    ensures Rewritten(t, s) == t
  {
    match t
    case Text(tokens) =>
      assert LeafAt(t, []) == Some(t);
      SettledExpandsToItself(s, |s|, tokens);
    case Items(items) =>
      assert LeafAt(t, []) == Some(t);
      forall i | 0 <= i < |items| ensures RewrittenItem(items[i], s) == items[i] {
        if items[i].Text? { SettledItem(s, items, i); }
      }
    case Section(entries) =>
      forall k | k in entries ensures Rewritten(entries[k], s) == entries[k] {
        forall p {:trigger LeafAt(entries[k], p)} | LeafAt(entries[k], p).Some?
          ensures LiveRefs(s, Shown(LeafAt(entries[k], p).value)) == {}
        {
          LeafAtUnder(t, k, p);
        }
        SettledTree(entries[k], s);
      }
      assert Rewritten(t, s).entries == entries;
  }

  lemma SettledItem(s: Store, items: seq<Node>, i: nat)
    requires i < |items| && items[i].Text? && LiveRefs(s, Shown(Items(items))) == {}
    ensures FullExpansion(s, items[i].tokens) == items[i].tokens
  {
    ItemsTextRefs(items, i);
    RefsInConcat([Lit("[")] + ItemsText(items), [Lit("]")]);
    RefsInConcat([Lit("[")], ItemsText(items));
    hide ItemsText;
    assert LiveRefs(s, items[i].tokens) <= LiveRefs(s, Shown(Items(items)));
    SettledExpandsToItself(s, |s|, items[i].tokens);
  }

  // ---------------------------------------------------------------- visits and passes

  /** What stays the same while variables are visited: the names of the variables that belong to
      the tree, names of variables that are texts, the default parameters, the placeholders that
      occur, and the expanded tree. */
  datatype Frame = Frame(own: set<Path>, texts: set<Path>, defaults: set<string>, refs: set<Path>, whole: Node)

  /** An own variable is registered with its leaf. */
  ghost predicate OwnAt(t: Node, dv: Variables, n: Path) {
    n in dv && LeafAt(t, n).Some? && Full(LeafAt(t, n).value) && dv[n] == ValueOf(LeafAt(t, n).value)
  }

  ghost predicate ForeignAt(t: Node, dv: Variables, n: Path) { n in dv && Harmless(t, n, dv[n]) }

  ghost predicate GroundAt(t: Node, n: Path) { n in Leaves(t) && RefsIn(Leaves(t)[n]) == {} }

  /** The own variables are registered with their leaves, all other leaves have no placeholders, and
      the other variables are harmless. */
  ghost predicate Hosted(t: Node, dv: Variables, f: Frame) {
    && t.Section? && RefsAmong(t, f.refs) && Rewritten(t, Leaves(t)) == f.whole
    && (forall n {:trigger OwnAt(t, dv, n)} :: n in f.own ==> OwnAt(t, dv, n))
    && (forall n {:trigger ForeignAt(t, dv, n)} :: n in dv && n !in f.own ==> ForeignAt(t, dv, n))
    && (forall n {:trigger GroundAt(t, n)} :: n in Leaves(t) && n !in f.own ==> GroundAt(t, n))
    && (forall n :: n in dv ==> ValueAmong(dv[n], f.refs) && (n in f.texts ==> dv[n].One?))
  }

  /** No element of a list is expanded to the name of a default parameter: it would no longer be
      looked at, and the elements after it would be taken for those before. */
  ghost predicate Unshifted(f: Frame) {
    && PlainNames(f.defaults)
    && forall n, i {:trigger ElementOf(f.whole, n, i)} :: n in f.own && ElementOf(f.whole, n, i).Some? ==>
         Written(ElementOf(f.whole, n, i).value) !in f.defaults
  }

  /** The text of the i-th element of the list at the path. */
  function ElementOf(t: Node, n: Path, i: nat): Option<Tokens> {
    match LeafAt(t, n)
    case Some(Items(items)) => if i < |items| && items[i].Text? then Some(items[i].tokens) else None
    case _ => None
  }

  /** All elements of a list are looked at. */
  lemma ElementsWanted(t: Node, dv: Variables, n: Path, f: Frame)
    requires Hosted(t, dv, f) && Unshifted(f) && n in f.own
    ensures LeafAt(t, n).Some? && Visitable(t, n, LeafAt(t, n).value, f.defaults)
    ensures n in dv && dv[n] == ValueOf(LeafAt(t, n).value)
  {
    assert OwnAt(t, dv, n);
    var leaf, s := LeafAt(t, n).value, Leaves(t);
    if leaf.Items? {
      RewrittenLeafAt(t, s, n);
      forall i | 0 <= i < |Parts(leaf)| ensures Written(Parts(leaf)[i]) !in f.defaults {
        var key := Parts(leaf)[i];
        assert ElementOf(f.whole, n, i) == Some(FullExpansion(s, key));
        if HasRef(key) { PercentSigns(key); } else { GroundExpands(s, key); }
      }
    }
  }

  lemma GroundExpands(s: Store, ts: Tokens)
    requires RefsIn(ts) == {}
    ensures FullExpansion(s, ts) == ts
  {
    SettledExpandsToItself(s, |s|, ts);
  }

  /** One visit, of an own or of a foreign variable. */
  lemma VisitOne(t: Node, dv: Variables, n: Path, f: Frame, rank: map<Path, nat>)
    requires Hosted(t, dv, f) && Unshifted(f) && n in dv && RankedWithin(Leaves(t), rank)
    ensures var (t', v) := Visit(t, n, dv[n], f.defaults);
      Hosted(t', dv[n := v], f) && Leaves(t') == Step(Leaves(t), n)
  {
    var (t', v) := Visit(t, n, dv[n], f.defaults);
    if n in f.own {
      VisitMine(t, dv, n, f, rank);
    } else {
      assert ForeignAt(t, dv, n);
      VisitForeign(t, n, dv[n], f.defaults, f.refs);
      if n in Leaves(t) {
        assert GroundAt(t, n);
        InlineOfSettled(Leaves(t), Leaves(t)[n]);
        assert Leaves(t)[n := Leaves(t)[n]] == Leaves(t);
      }
      hide Visit, Rewritten, RefsAmong, Harmless, Leaves;
      forall m | m in f.own ensures OwnAt(t, dv[n := v], m) { assert OwnAt(t, dv, m); }
      forall m | m in dv && m !in f.own ensures ForeignAt(t, dv[n := v], m) { assert ForeignAt(t, dv, m); }
    }
  }

  lemma VisitMine(t: Node, dv: Variables, n: Path, f: Frame, rank: map<Path, nat>)
    requires Hosted(t, dv, f) && Unshifted(f) && n in f.own && n in dv && RankedWithin(Leaves(t), rank)
    ensures var (t', v) := Visit(t, n, dv[n], f.defaults);
      Hosted(t', dv[n := v], f) && Leaves(t') == Step(Leaves(t), n)
  {
    var s := Leaves(t);
    ElementsWanted(t, dv, n, f);
    var leaf := LeafAt(t, n).value;
    var leaf' := InlineFrom(s, leaf, 0);
    LeavesExactly(t, n);
    NotItself(s, rank, n);
    VisitOwn(t, n, leaf, f.defaults);
    VisitKept(t, n, leaf, rank);
    hide Visit, Rewritten, InlineFrom, Unshifted, RankedWithin, Shown, Leaves, Put, RefsAmong;
    PutHosted(t, dv, n, leaf', f);
  }

  lemma NotItself(s: Store, rank: map<Path, nat>, n: Path)
    requires RankedWithin(s, rank) && n in s
    ensures n !in RefsIn(s[n])
  {
    if Live(s, n) { assert n !in LiveRefs(s, s[n]); }
  }

  lemma {:induction false} InlineAmong(s: Store, ts: Tokens, refs: set<Path>)
    requires RefsIn(ts) <= refs && forall p :: p in s ==> RefsIn(s[p]) <= refs
    ensures RefsIn(Inline(s, ts)) <= refs
  {
    if ts != [] {
      InlineAmong(s, ts[1..], refs);
      RefsInConcat(InlineToken(s, ts[0]), Inline(s, ts[1..]));
      assert [ts[0]][1..] == [] && RefsIn([]) == {};
    }
  }

  lemma StepAmong(t: Node, n: Path, t': Node, refs: set<Path>)
    requires RefsAmong(t, refs) && n in Leaves(t) && Leaves(t') == Step(Leaves(t), n)
    ensures RefsAmong(t', refs)
  {
    InlineAmong(Leaves(t), Leaves(t)[n], refs);
    hide Leaves;
  }

  lemma ValueOfAmong(t: Node, n: Path, leaf: Node, refs: set<Path>)
    requires RefsAmong(t, refs) && LeafAt(t, n) == Some(leaf) && Full(leaf)
    ensures ValueAmong(ValueOf(leaf), refs)
  {
    LeavesExactly(t, n);
    forall i | 0 <= i < |Parts(leaf)| ensures RefsIn(Parts(leaf)[i]) <= refs { PartRefs(leaf, i); }
    assert leaf.Items? ==> ValueOf(leaf).texts == Parts(leaf);
    assert leaf.Text? ==> Parts(leaf)[0] == leaf.tokens;
  }

  /** The tree with another leaf for an own variable. */
  lemma PutHosted(t: Node, dv: Variables, n: Path, leaf: Node, f: Frame)
    requires Hosted(t, dv, f) && n in f.own && n in dv && Full(leaf) && LeafAt(t, n).Some?
    requires LeafAt(t, n).value.Text? ==> leaf.Text?
    requires var t' := Put(t, n, leaf); Leaves(t') == Step(Leaves(t), n) && Rewritten(t', Leaves(t')) == f.whole
    ensures Hosted(Put(t, n, leaf), dv[n := ValueOf(leaf)], f)
  {
    var t', dv' := Put(t, n, leaf), dv[n := ValueOf(leaf)];
    PutLeafAt(t, n, leaf, n);
    LeavesExactly(t, n);
    StepAmong(t, n, t', f.refs);
    ValueOfAmong(t', n, leaf, f.refs);
    assert n != [] && t'.Section?;
    assert OwnAt(t, dv, n) && (dv[n].One? ==> ValueOf(leaf).One?);
    hide Rewritten, ValueOf, Step, ValueAmong, RefsAmong, Put, LeafAt, Leaves, Harmless;
    forall m | m in f.own ensures OwnAt(t', dv', m) {
      assert OwnAt(t, dv, m);
      PutLeafAt(t, n, leaf, m);
    }
    forall m | m in dv' && m !in f.own ensures ForeignAt(t', dv', m) {
      assert ForeignAt(t, dv, m);
      PutHarmless(t, n, leaf, m, dv[m]);
    }
    forall m | m in Leaves(t') && m !in f.own ensures GroundAt(t', m) {
      LeavesExactly(t', m);
      PutLeafAt(t, n, leaf, m);
      LeavesExactly(t, m);
      assert GroundAt(t, m);
    }
  }

  lemma PutHarmless(t: Node, n: Path, leaf: Node, m: Path, v: Value)
    requires LeafAt(t, n).Some? && !leaf.Section? && m != n && Harmless(t, m, v)
    ensures Harmless(Put(t, n, leaf), m, v)
  {
    var t' := Put(t, n, leaf);
    forall k {:trigger m[..k]} | 0 <= k < |m| ensures LeafAt(t', m[..k]) == None {
      assert LeafAt(t, m[..k]) == None;
      PutLeafAt(t, n, leaf, m[..k]);
    }
    PutLeafAt(t, n, leaf, m);
    PutAtNone(t, n, leaf, m);
  }

  lemma {:induction false} PutAtNone(t: Node, p: Path, x: Node, q: Path)
    requires LeafAt(t, p).Some? && !x.Section?
    ensures At(Put(t, p, x), q) == None <==> At(t, q) == None
    decreases |p|
  {
    if p != [] && q != [] && p[0] == q[0] { PutAtNone(t.entries[p[0]], p[1..], x, q[1..]); }
  }

  /** The variables still to be visited are as at the start of the pass. */
  ghost predicate StillAs(dv: Variables, out: Variables, order: seq<Path>) {
    Distinct(order) && forall n :: n in order ==> n in dv && n in out && out[n] == dv[n]
  }

  /** A pass over the tree is a pass over the texts of its leaves. */
  lemma {:induction false} PassHosted(t: Node, dv: Variables, out: Variables, order: seq<Path>, f: Frame,
                                      rank: map<Path, nat>)
    requires Hosted(t, out, f) && Unshifted(f) && RankedWithin(Leaves(t), rank) && StillAs(dv, out, order)
    ensures var (t', out') := Pass(t, dv, out, order, f.defaults);
      Hosted(t', out', f) && out'.Keys == out.Keys && Leaves(t') == PassOver(Leaves(t), order)
    decreases |order|
  {
    if order != [] {
      var n := order[0];
      VisitOne(t, out, n, f, rank);
      StepWithin(Leaves(t), rank, n);
      var (t1, v) := Visit(t, n, dv[n], f.defaults);
      hide Visit, Hosted, Unshifted, RankedWithin, Leaves, Step;
      PassHosted(t1, dv, out[n := v], order[1..], f, rank);
    }
  }

  lemma StepWithin(s: Store, rank: map<Path, nat>, n: Path)
    requires RankedWithin(s, rank)
    ensures RankedWithin(Step(s, n), rank)
  {
    StepKeeps(s, rank, n);
    assert Step(s, n).Keys == s.Keys && |Step(s, n).Keys| == |Step(s, n)| && |s.Keys| == |s|;
  }

  // ---------------------------------------------------------------- whole rounds

  lemma OwnAreVisited(t: Node, dv: Variables, order: seq<Path>, f: Frame)
    requires Hosted(t, dv, f) && Lists(order, dv)
    ensures VisitsLive(Leaves(t), order)
  {
    var s := Leaves(t);
    forall n | n in s && LiveRefs(s, s[n]) != {} ensures n in order {
      assert n in f.own || GroundAt(t, n);
      assert OwnAt(t, dv, n);
    }
  }

  /** If no variable changes in a pass, no leaf does. */
  lemma UnchangedLeaves(t: Node, dv: Variables, order: seq<Path>, t1: Node, f: Frame, rank: map<Path, nat>)
    requires Hosted(t, dv, f) && Hosted(t1, dv, f) && Lists(order, dv) && Ranked(Leaves(t), rank)
    requires Leaves(t1) == PassOver(Leaves(t), order)
    ensures Leaves(t1) == Leaves(t)
  {
    PassKeeps(Leaves(t), rank, order);
    forall n | n in Leaves(t) ensures Leaves(t1)[n] == Leaves(t)[n] {
      LeavesExactly(t, n);
      LeavesExactly(t1, n);
      if n in f.own {
        assert OwnAt(t, dv, n) && OwnAt(t1, dv, n);
        SameValueSameLeaf(LeafAt(t, n).value, LeafAt(t1, n).value);
      } else {
        assert GroundAt(t, n);
        GroundUnvisited(Leaves(t), rank, order, n);
      }
    }
  }

  lemma SameValueSameLeaf(a: Node, b: Node)
    requires Full(a) && Full(b) && ValueOf(a) == ValueOf(b)
    ensures a == b
  {
    if a.Items? {
      forall i | 0 <= i < |a.items| ensures a.items[i] == b.items[i] {
        assert ValueOf(a).texts[i] == ValueOf(b).texts[i];
      }
    }
  }

  lemma GroundUnvisited(s: Store, rank: map<Path, nat>, order: seq<Path>, n: Path)
    requires Ranked(s, rank) && n in s && RefsIn(s[n]) == {} && Distinct(order)
    ensures n in PassOver(s, order) && PassOver(s, order)[n] == s[n]
  {
    if n in order { PassVisits(s, rank, order, n); } else { PassLeavesOthers(s, order, n); }
  }

  /** Where nothing is left to substitute, the tree has reached its expansion. */
  lemma SettledIsWhole(t: Node, dv: Variables, f: Frame)
    requires Hosted(t, dv, f) && Settled(Leaves(t))
    ensures t == f.whole
  {
    forall p {:trigger LeafAt(t, p)} | LeafAt(t, p).Some?
      ensures LiveRefs(Leaves(t), Shown(LeafAt(t, p).value)) == {}
    {
      LeavesExactly(t, p);
    }
    SettledTree(t, Leaves(t));
  }

  /** One pass over all variables. */
  lemma WholePass(t: Node, dv: Variables, order: seq<Path>, f: Frame, rank: map<Path, nat>)
    requires Hosted(t, dv, f) && Unshifted(f) && Lists(order, dv) && RankedWithin(Leaves(t), rank)
    ensures var (t1, dv1) := Pass(t, dv, dv, order, f.defaults);
      && Hosted(t1, dv1, f) && Lists(order, dv1) && dv1.Keys == dv.Keys && VisitsLive(Leaves(t), order)
      && Leaves(t1) == PassOver(Leaves(t), order) && RankedWithin(Leaves(t1), Lowered(rank))
      && (dv1 == dv || Settled(Leaves(t)) ==> Settled(Leaves(t1)))
  {
    OwnAreVisited(t, dv, order, f);
    PassLists(t, dv, order, f.defaults);
    PassWithin(Leaves(t), rank, order);
    var (t1, dv1) := Pass(t, dv, dv, order, f.defaults);
    hide Pass, Settled, VisitsLive, Hosted, RankedWithin, Ranked, Lowered, PassOver, Leaves;
    PassHosted(t, dv, dv, order, f, rank);
    if dv1 == dv { UnchangedLeaves(t, dv, order, t1, f, rank); }
  }

  lemma PassWithin(s: Store, rank: map<Path, nat>, order: seq<Path>)
    requires RankedWithin(s, rank) && VisitsLive(s, order)
    ensures Ranked(s, rank) && RankedWithin(PassOver(s, order), Lowered(rank))
    ensures PassOver(s, order) == s <==> Settled(s)
  {
    PassKeeps(s, rank, order);
    UnchangedIsSettled(s, rank, order);
    PassLowersRanks(s, rank, order);
    assert |PassOver(s, order).Keys| == |PassOver(s, order)| && |s.Keys| == |s|;
  }

  /** The loop ends with the expanded tree, if nothing was left to substitute or more passes are
      allowed than there are ranks. */
  lemma {:induction false} RoundsSettle(t: Node, dv: Variables, order: seq<Path>, left: nat, f: Frame,
                                        rank: map<Path, nat>, top: nat)
    requires Hosted(t, dv, f) && Unshifted(f) && Lists(order, dv) && RankedWithin(Leaves(t), rank)
    requires Settled(Leaves(t)) || (top < left && forall n :: n in Leaves(t) ==> rank[n] <= top)
    ensures var (t', dv') := Rounds(t, dv, order, left, f.defaults);
      t' == f.whole && Settled(Leaves(t')) && Hosted(t', dv', f) && dv'.Keys == dv.Keys
    decreases left
  {
    hide Hosted, Unshifted, RankedWithin, Leaves, Settled, Pass, PassOver, Lowered, VisitsLive, Ranked, Distinct;
    if |dv| == 0 {
      NothingIsOwn(t, dv, order, f);
      SettledIsWhole(t, dv, f);
    } else if left == 0 {
      SettledIsWhole(t, dv, f);
    } else {
      WholePass(t, dv, order, f, rank);
      var (t1, dv1) := Pass(t, dv, dv, order, f.defaults);
      if dv1 == dv {
        SettledIsWhole(t1, dv1, f);
      } else {
        var top' := TopAfterPass(t, order, t1, f, rank, top);
        RoundsSettle(t1, dv1, order, left - 1, f, Lowered(rank), top');
      }
    }
  }

  lemma NothingIsOwn(t: Node, dv: Variables, order: seq<Path>, f: Frame)
    requires Hosted(t, dv, f) && Lists(order, dv) && |dv| == 0
    ensures Settled(Leaves(t))
  {
    OwnAreVisited(t, dv, order, f);
  }

  lemma TopAfterPass(t: Node, order: seq<Path>, t1: Node, f: Frame, rank: map<Path, nat>, top: nat) returns (top': nat)
    requires RankedWithin(Leaves(t), rank) && VisitsLive(Leaves(t), order) && Leaves(t1) == PassOver(Leaves(t), order)
    requires Settled(Leaves(t)) ==> Settled(Leaves(t1))
    requires Settled(Leaves(t)) || forall n :: n in Leaves(t) ==> rank[n] <= top
    ensures Settled(Leaves(t1))
      || (top' < top && forall n :: n in Leaves(t1) ==> n in Lowered(rank) && Lowered(rank)[n] <= top')
  {
    top' := 0;
    if !Settled(Leaves(t1)) {
      UnchangedIsSettled(Leaves(t), rank, order);
      RanksAfterPass(Leaves(t), rank, order, top);
      PassKeeps(Leaves(t), rank, order);
      top' := top - 1;
    }
  }

  // ---------------------------------------------------------------- the main theorem

  /** The values with placeholders: what reading the tree registers. */
  ghost function OwnVariables(t: Node): Variables {
    map n | n in LeafPaths(t) && Marked(LeafOf(t, n)) :: ValueOf(LeafOf(t, n))
  }

  function LeafOf(t: Node, n: Path): Node {
    match LeafAt(t, n)
    case Some(leaf) => leaf
    case None => BLANK
  }

  lemma OwnExactly(t: Node, n: Path)
    ensures n in OwnVariables(t) <==> LeafAt(t, n).Some? && Marked(LeafAt(t, n).value)
    ensures n in OwnVariables(t) ==> OwnVariables(t)[n] == ValueOf(LeafAt(t, n).value)
  {
    LeafPathsExactly(t, n);
  }

  lemma {:induction false} UnmarkedItems(items: seq<Node>)
    requires !Marked(Items(items))
    ensures RefsIn(ItemsText(items)) == {}
    decreases items, 0
  {
    if items != [] {
      var n := |items| - 1;
      assert !Marked(items[n]);
      forall i | 0 <= i < n ensures !Marked(items[..n][i]) { assert !Marked(items[i]); }
      UnmarkedItems(items[..n]);
      UnmarkedItem(items[n]);
      var glue := if n == 0 then [] else [Lit(", ")];
      RefsInConcat(ItemsText(items[..n]) + glue, ItemText(items[n]));
      RefsInConcat(ItemsText(items[..n]), glue);
    }
  }

  lemma {:induction false} UnmarkedItem(n: Node)
    requires !Marked(n)
    ensures RefsIn(ItemText(n)) == {}
    decreases n
  {
    if n.Text? { QuotedRefs(n.tokens); }
    if n.Items? { UnmarkedItems(n.items); ListRefs(n.items); }
  }

  lemma ListRefs(items: seq<Node>)
    ensures RefsIn(ListText(items)) == RefsIn(ItemsText(items))
  {
    RefsInConcat([Lit("[")] + ItemsText(items), [Lit("]")]);
    RefsInConcat([Lit("[")], ItemsText(items));
  }

  lemma UnmarkedIsGround(leaf: Node)
    requires !Marked(leaf)
    ensures RefsIn(Shown(leaf)) == {}
  {
    if leaf.Items? { UnmarkedItems(leaf.items); ListRefs(leaf.items); }
  }

  /** Texts that Python writes in lists as they are, between quotes. */
  predicate Showable(n: Node) {
    match n
    case Text(tokens) => forall i :: 0 <= i < |tokens| && tokens[i].Lit? ==> PlainWriting(tokens[i].text)
    case Items(items) => forall i :: 0 <= i < |items| ==> !items[i].Section? && Showable(items[i])
    case Section(entries) => forall k :: k in entries ==> Showable(entries[k])
  }

  predicate PlainWriting(s: string) { forall i :: 0 <= i < |s| ==> ' ' <= s[i] <= '~' && s[i] !in "'\"\\" }

  /** The placeholder leads to a text, to a list, or to nothing, and to a list only where texts are
      written in lists as they are. */
  ghost predicate NamesLeaf(t: Node, r: Path) {
    && ClearOfLeaves(t, r)
    && match At(t, r)
       case None => true
       case Some(Text(_)) => true
       case Some(Items(_)) => Showable(t)
       case Some(Section(entries)) => entries == map[]
  }

  /** The tree's own variables are registered: texts, and lists of at least two texts that are not
      empty. Others may be registered too, that lead to nothing or to a text of the tree. */
  ghost predicate Registered(t: Node, dv: Variables) {
    && (forall n :: n in OwnVariables(t) ==> Full(LeafOf(t, n)) && n in dv && dv[n] == OwnVariables(t)[n])
    && (forall n :: n in dv && n !in OwnVariables(t) ==> Harmless(t, n, dv[n]))
  }

  ghost function FrameOf(t: Node, texts: set<Path>, defaults: set<string>, refs: set<Path>): Frame {
    Frame(OwnVariables(t).Keys, texts, defaults, refs, Rewritten(t, Leaves(t)))
  }

  /** Everything with a placeholder is registered, references are acyclic, and no element of a list
      becomes the name of a default parameter; `refs` are the placeholders that occur. */
  ghost predicate Ready(t: Node, dv: Variables, defaults: set<string>, refs: set<Path>) {
    && t.Section? && Registered(t, dv) && Acyclic(RefGraph(Leaves(t))) && Unshifted(FrameOf(t, {}, defaults, refs))
    && RefsAmong(t, refs) && (forall n :: n in dv ==> ValueAmong(dv[n], refs))
    && (forall r :: r in refs ==> NamesLeaf(t, r))
  }

  lemma ReadyIsHosted(t: Node, dv: Variables, defaults: set<string>, refs: set<Path>, texts: set<Path>)
    requires Ready(t, dv, defaults, refs) && forall n :: n in dv && n in texts ==> dv[n].One?
    ensures var f := FrameOf(t, texts, defaults, refs); Hosted(t, dv, f) && Unshifted(f)
  {
    var f := FrameOf(t, texts, defaults, refs);
    hide Harmless, RefsAmong, ValueAmong, Rewritten, OwnVariables;
    forall n | n in f.own ensures OwnAt(t, dv, n) { OwnExactly(t, n); }
    forall n | n in dv && n !in f.own ensures ForeignAt(t, dv, n) {}
    forall n | n in Leaves(t) && n !in f.own ensures GroundAt(t, n) {
      LeavesExactly(t, n);
      OwnExactly(t, n);
      UnmarkedIsGround(LeafAt(t, n).value);
    }
    assert forall n, i :: ElementOf(FrameOf(t, {}, defaults, refs).whole, n, i) == ElementOf(f.whole, n, i);
  }

  /** Only own variables have live references, so the ranks fit below the number of variables. */
  lemma HeightsFit(t: Node, dv: Variables, f: Frame)
    requires Hosted(t, dv, f) && f.own <= dv.Keys && Acyclic(RefGraph(Leaves(t)))
    ensures RankedWithin(Leaves(t), Heights(Leaves(t)))
    ensures forall n :: n in Leaves(t) ==> Heights(Leaves(t))[n] <= |dv|
  {
    var g := RefGraph(Leaves(t));
    HeightsRank(Leaves(t));
    forall m | m in g && g[m] != {} ensures m in dv.Keys { assert m in f.own || GroundAt(t, m); }
    forall n | n in Leaves(t) ensures Height(g, n) <= |dv| {
      HeightBound(g, n, dv.Keys);
      assert |dv.Keys| == |dv|;
    }
  }

  lemma ReadyHeights(t: Node, dv: Variables, defaults: set<string>, refs: set<Path>)
    requires Ready(t, dv, defaults, refs)
    ensures var s := Leaves(t);
      Acyclic(RefGraph(s)) && RankedWithin(s, Heights(s)) && forall n :: n in s ==> Heights(s)[n] <= |dv|
  {
    hide Acyclic, Harmless, Unshifted, NamesLeaf, RefsAmong, ValueAmong, OwnVariables, Leaves;
    ReadyIsHosted(t, dv, defaults, refs, {});
    HeightsFit(t, dv, FrameOf(t, {}, defaults, refs));
  }

  /** However the variables are ordered, and whatever else is registered, the loop ends with every
      text and every element of a list at its full expansion, well before the cap on passes. */
  lemma SubstitutionIsFullExpansion(t: Node, dv: Variables, order: seq<Path>, defaults: set<string>, refs: set<Path>)
    requires Ready(t, dv, defaults, refs) && Lists(order, dv)
    ensures var r := Substitute(t, dv, order, defaults);
      r.Some? && r.value.0 == Rewritten(t, Leaves(t)) && Settled(Leaves(r.value.0))
  {
    ReadyIsHosted(t, dv, defaults, refs, {});
    SubstitutionKeeps(t, dv, order, defaults, refs, {});
  }

  /** Substitution brings no new placeholders and no new variables, and a text stays a text. */
  lemma SubstitutionKeeps(t: Node, dv: Variables, order: seq<Path>, defaults: set<string>, refs: set<Path>,
                          texts: set<Path>)
    requires Ready(t, dv, defaults, refs) && Lists(order, dv) && forall n :: n in dv && n in texts ==> dv[n].One?
    ensures var r := Substitute(t, dv, order, defaults);
      && r.Some? && r.value.0 == Rewritten(t, Leaves(t)) && Settled(Leaves(r.value.0))
      && r.value.1.Keys <= dv.Keys
      && forall n :: n in r.value.1 ==> ValueAmong(r.value.1[n], refs) && (n in texts ==> r.value.1[n].One?)
  {
    var f := FrameOf(t, texts, defaults, refs);
    ReadyIsHosted(t, dv, defaults, refs, texts);
    var (t', dv') := Rounds(t, dv, order, MAX_DEEP + |dv|, defaults);
    forall n | n in dv ensures !dv[n].Unhashable? {}
    assert f.own <= dv.Keys;
    hide Rounds, Harmless, Rewritten, Leaves, OwnVariables, RefsAmong, Heights, Settled, Ready, Acyclic, Lists;
    RankedSubstitution(t, dv, order, f);
    forall n | n in Cleaned(dv') ensures ValueAmong(Cleaned(dv')[n], refs) && (n in texts ==> Cleaned(dv')[n].One?) {
      if dv'[n].Many? { WithRefsAmong(dv'[n].texts, refs); }
    }
  }

  lemma RankedSubstitution(t: Node, dv: Variables, order: seq<Path>, f: Frame)
    requires Hosted(t, dv, f) && Unshifted(f) && Lists(order, dv) && f.own <= dv.Keys && Acyclic(RefGraph(Leaves(t)))
    ensures var (t', dv') := Rounds(t, dv, order, MAX_DEEP + |dv|, f.defaults);
      t' == f.whole && Settled(Leaves(t')) && Hosted(t', dv', f) && dv'.Keys == dv.Keys
  {
    HeightsFit(t, dv, f);
    hide Hosted, Unshifted, Heights, RankedWithin, Lists, Rounds, Acyclic;
    RoundsSettle(t, dv, order, MAX_DEEP + |dv|, f, Heights(Leaves(t)), |dv|);
  }

  lemma {:induction false} WithRefsAmong(texts: seq<Tokens>, refs: set<Path>)
    requires KeysAmong(texts, refs)
    ensures KeysAmong(WithRefs(texts), refs)
  {
    if texts != [] { WithRefsAmong(texts[1..], refs); }
  }

  // ---------------------------------------------------------------- what stays registered

  function Placeheld(texts: seq<Tokens>): (r: seq<bool>)
    ensures |r| == |texts|
  {
    seq(|texts|, i requires 0 <= i < |texts| => RefsIn(texts[i]) != {})
  }

  lemma {:induction false} WithRefsPicked(texts: seq<Tokens>)
    ensures WithRefs(texts) == Picked(texts, Placeheld(texts))
    ensures WithRefs(texts) != [] <==> exists i :: 0 <= i < |texts| && RefsIn(texts[i]) != {}
  {
    if texts != [] {
      WithRefsPicked(texts[1..]);
      assert Placeheld(texts)[1..] == Placeheld(texts[1..]);
      if i :| 0 <= i < |texts| && RefsIn(texts[i]) != {} { assert i > 0 ==> texts[1..][i-1] == texts[i]; }
      if i :| 0 <= i < |texts[1..]| && RefsIn(texts[1..][i]) != {} { assert texts[i+1] == texts[1..][i]; }
    }
  }

  /** What stays registered for a value: a text with a placeholder, or of a list those of its texts that
      have one. */
  ghost predicate StaysAs(v: Value, kept: Variables, n: Path) {
    match v
    case One(text) => if RefsIn(text) != {} then n in kept && kept[n] == v else n !in kept
    case Many(texts) =>
      if exists i :: 0 <= i < |texts| && RefsIn(texts[i]) != {}
      then n in kept && kept[n] == Many(Picked(texts, Placeheld(texts)))
      else n !in kept
    case Unhashable => n !in kept
  }

  lemma CleanedIs(dv: Variables, n: Path)
    requires n in dv
    ensures StaysAs(dv[n], Cleaned(dv), n)
  {
    if dv[n].Many? { WithRefsPicked(dv[n].texts); }
    hide WithRefs, Picked;
  }

  /** After the substitution a variable of the tree is registered exactly if its value in the expanded tree
      still has a placeholder, with that value; of a list only the elements with placeholders are kept. No
      name is registered that was not. */
  lemma WhatStaysRegistered(t: Node, dv: Variables, order: seq<Path>, defaults: set<string>, refs: set<Path>)
    requires Ready(t, dv, defaults, refs) && Lists(order, dv)
    ensures var r := Substitute(t, dv, order, defaults);
      && r.Some? && r.value.1.Keys <= dv.Keys
      && (forall n :: n in OwnVariables(t) ==> StaysAs(ValueOf(LeafOf(Rewritten(t, Leaves(t)), n)), r.value.1, n))
    ensures var dv' := Rounds(t, dv, order, MAX_DEEP + |dv|, defaults).1;
      forall n :: n in dv' ==> StaysAs(dv'[n], Substitute(t, dv, order, defaults).value.1, n)
  {
    hide *;
    var f := FrameOf(t, {}, defaults, refs);
    ReadyIsHosted(t, dv, defaults, refs, {});
    ReadyMeans(t, dv, order, defaults, refs);
    RankedSubstitution(t, dv, order, f);
    var (t', dv') := Rounds(t, dv, order, MAX_DEEP + |dv|, defaults);
    forall n | n in OwnVariables(t) ensures StaysAs(ValueOf(LeafOf(f.whole, n)), Cleaned(dv'), n) {
      OwnLeaf(t', dv', f, n);
      CleanedIs(dv', n);
    }
    forall n | n in dv' ensures StaysAs(dv'[n], Cleaned(dv'), n) { CleanedIs(dv', n); }
    CleanedNames(dv');
  }

  lemma CleanedNames(dv: Variables)
    ensures Cleaned(dv).Keys <= dv.Keys
  {}

  lemma OwnLeaf(t: Node, dv: Variables, f: Frame, n: Path)
    requires Hosted(t, dv, f) && n in f.own
    ensures n in dv && dv[n] == ValueOf(LeafOf(t, n))
  {
    assert OwnAt(t, dv, n);
  }

  lemma ReadyMeans(t: Node, dv: Variables, order: seq<Path>, defaults: set<string>, refs: set<Path>)
    requires Ready(t, dv, defaults, refs) && Lists(order, dv)
    ensures MAX_DEEP > 0
    ensures var f := FrameOf(t, {}, defaults, refs);
      && f.own == OwnVariables(t).Keys <= dv.Keys && f.whole == Rewritten(t, Leaves(t)) && f.defaults == defaults
      && Acyclic(RefGraph(Leaves(t)))
    ensures var r, (t', dv') := Substitute(t, dv, order, defaults), Rounds(t, dv, order, MAX_DEEP + |dv|, defaults);
      r == Some((t', Cleaned(dv')))
  {
    hide Rounds, Harmless, Rewritten, Leaves, OwnVariables, RefsAmong, Acyclic, Lists, Cleaned, Full;
    hide Unshifted, NamesLeaf;
    forall n | n in dv ensures !dv[n].Unhashable? {}
  }
}

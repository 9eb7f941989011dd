/** Lists of one element with placeholders. With its first splice such a variable becomes a text, and
    from its second splice on the element of the list is spoilt. */
module OneElementLists {
  import opened Options
  import opened Sequences
  import opened ConfigTree
  import opened Flatten
  import opened Digraph
  import opened Placeholders
  import opened Expansion
  import opened Substitution
  import opened Rewriting
  import opened FullSubstitution

  // ---------------------------------------------------------------- one splice

  function ListOfOne(y: Tokens): Node { Items([Text(y)]) }

  /** The element starts with the value, and goes on. */
  ghost predicate Spoilt(y: Tokens, x: Tokens) {
    |Written(y)| > |Written(x)| && Written(y)[..|Written(x)|] == Written(x)
  }

  /** How far a variable with value `x` and element `y` has come: not spliced, spliced once, or
      spoilt. */
  ghost predicate AtLevel(level: nat, v: Value, y: Tokens, x: Tokens) {
    match level
    case 0 => v == Many([x]) && y == x
    case 1 => v == One(x) && y == x
    case _ => level == 2 && v == One(x) && Spoilt(y, x)
  }

  function AtMostTwo(n: nat): nat { if n < 2 then n else 2 }

  lemma {:induction false} ReplaceAllLonger(s: string, c: char, n: string)
    requires s != "" && n != ""
    ensures |ReplaceAll(s, [c], n)| >= |s|
  {
    if |s| > 1 { ReplaceAllLonger(s[1..], c, n); }
  }

  /** Replacing the first character of a text of at least two. */
  lemma ReplaceHead(s: string, n: string)
    requires |s| >= 2 && n != ""
    ensures var r := ReplaceAll(s, [s[0]], n); |r| > |n| && r[..|n|] == n
  {
    assert s[..1] == [s[0]];
    ReplaceAllLonger(s[1..], s[0], n);
  }

  lemma WrittenRef(key: Tokens, m: nat)
    requires 0 < m <= |key| && key[m-1].Ref?
    ensures |Written(key)| >= 2
  {
    assert key == key[..m-1] + ([key[m-1]] + key[m..]);
    WrittenConcat(key[..m-1], [key[m-1]] + key[m..]);
    WrittenConcat([key[m-1]], key[m..]);
    assert Written([key[m-1]]) == WrittenToken(key[m-1]) + Written([]);
  }

  lemma {:induction false} ReplaceAtList(t: Node, p: Path, y: Tokens, was: Value, now: Tokens)
    requires t.Section? && LeafAt(t, p) == Some(ListOfOne(y))
    ensures ReplaceAt(t, p, was, 0, now) == Put(t, p, ListOfOne(ReplaceElement(y, was, 0, now)))
    decreases |p|
  {
    var child := t.entries[p[0]];
    if child.Section? {
      ReplaceAtList(child, p[1..], y, was, now);
    } else {
      assert At(t, p) == At(child, p[1..]);
      assert p[1..] == [] && child == ListOfOne(y);
      assert [Text(y)][0 := Text(ReplaceElement(y, was, 0, now))] == [Text(ReplaceElement(y, was, 0, now))];
    }
  }

  /** The element after a splice of the variable. */
  lemma ReplacedElement(level: nat, v: Value, y: Tokens, key: Tokens, now: Tokens)
    requires AtLevel(level, v, y, key) && |Written(key)| >= 2 && Written(now) != ""
    ensures AtLevel(AtMostTwo(level + 1), One(now), ReplaceElement(y, v, 0, now), now)
  {
    if level > 0 {
      var w := ReplaceAll(Written(y), [Written(key)[0]], Written(now));
      assert Written(y)[0] == Written(key)[0] by { assert Written(y)[..|Written(key)|][0] == Written(key)[0]; }
      ReplaceHead(Written(y), Written(now));
      WrittenTokenised(w);
      assert ReplaceElement(y, v, 0, now) == ReplaceIn(y, [], [Written(key)[0]], now);
    }
  }

  /** The splicing of the variable `n`, with value `key` and the element `y` in the tree. */
  ghost predicate CarriesOne(s: Splicing, t: Node, n: Path, y: Tokens, key: Tokens, level: nat) {
    s.tree == Put(t, n, ListOfOne(y)) && |s.keys| == 1 && AtLevel(level, s.value, y, key)
  }

  lemma ReplacedOne(s: Splicing, t: Node, n: Path, y: Tokens, key: Tokens, level: nat, now: Tokens) returns (y': Tokens)
    requires t.Section? && LeafAt(t, n).Some? && CarriesOne(s, t, n, y, key, level)
    requires |Written(key)| >= 2 && Written(now) != ""
    ensures CarriesOne(Replaced(s, n, 0, now), t, n, y', now, AtMostTwo(level + 1))
  {
    y' := ReplaceElement(y, s.value, 0, now);
    PutLeafAt(t, n, ListOfOne(y), n);
    PutTwice(t, n, ListOfOne(y), ListOfOne(y'));
    assert n != [];
    ReplaceAtList(s.tree, n, y, s.value, now);
    ReplacedElement(level, s.value, y, key, now);
  }

  // ---------------------------------------------------------------- one visit

  /** The number of the placeholders that find something. */
  ghost function LiveCount(s: Store, ts: Tokens): nat {
    if ts == [] then 0 else (if ts[0].Ref? && Live(s, ts[0].path) then 1 else 0) + LiveCount(s, ts[1..])
  }

  lemma {:induction false} LiveCountConcat(s: Store, a: Tokens, b: Tokens)
    ensures LiveCount(s, a + b) == LiveCount(s, a) + LiveCount(s, b)
  {
    if a == [] {
      assert a + b == b;
    } else {
      assert (a + b)[1..] == a[1..] + b;
      LiveCountConcat(s, a[1..], b);
    }
  }

  lemma {:induction false} LiveCountZero(s: Store, ts: Tokens)
    ensures LiveCount(s, ts) == 0 <==> LiveRefs(s, ts) == {}
  {
    if ts != [] {
      LiveCountZero(s, ts[1..]);
      if ts[0].Ref? && Live(s, ts[0].path) { assert ts[0].path in LiveRefs(s, ts); }
      assert LiveRefs(s, ts[1..]) <= LiveRefs(s, ts);
      assert LiveRefs(s, ts) <= LiveRefs(s, ts[1..]) + if ts[0].Ref? && Live(s, ts[0].path) then {ts[0].path} else {};
    }
  }

  lemma LiveCountLast(s: Store, key: Tokens, m: nat)
    requires 0 < m <= |key|
    ensures LiveCount(s, key[..m])
      == LiveCount(s, key[..m-1]) + if key[m-1].Ref? && Live(s, key[m-1].path) then 1 else 0
  {
    assert key[..m] == key[..m-1] + [key[m-1]];
    LiveCountConcat(s, key[..m-1], [key[m-1]]);
    assert LiveCount(s, [key[m-1]]) == (if key[m-1].Ref? && Live(s, key[m-1].path) then 1 else 0) + LiveCount(s, []);
  }

  /** No text that can be spliced in is written as the empty text. */
  ghost predicate Visible(s: Store) { forall r :: Live(s, r) ==> Written(s[r]) != "" }

  lemma {:induction false} SpliceOne(s: Splicing, t: Node, n: Path, y: Tokens, key: Tokens, level: nat, m: nat)
    returns (y': Tokens)
    requires t.Section? && LeafAt(t, n).Some? && CarriesOne(s, t, n, y, key, level) && Visible(Leaves(t))
    requires m <= |key| && n !in RefsIn(key[..m])
    ensures var st := Leaves(t);
      CarriesOne(SpliceKey(s, n, 0, key, m), t, n, y', Inline(st, key[..m]) + key[m..],
                 AtMostTwo(level + LiveCount(st, key[..m])))
    decreases m
  {
    var st := Leaves(t);
    if m == 0 {
      InlineNothing(st, key);
      y' := y;
    } else {
      LiveCountLast(st, key, m);
      var tok := key[m-1];
      if tok.Ref? && Live(st, tok.path) {
        y' := SpliceOneLive(s, t, n, y, key, level, m);
      } else {
        InlineSkips(s, t, n, y, key, m);
        hide LiveCount, Leaves, LeafAt, CarriesOne, SpliceKey, Live;
        y' := SpliceOne(s, t, n, y, key, level, m - 1);
      }
    }
  }

  lemma InlineSkips(s: Splicing, t: Node, n: Path, y: Tokens, key: Tokens, m: nat)
    requires LeafAt(t, n).Some? && s.tree == Put(t, n, ListOfOne(y)) && |s.keys| == 1
    requires 0 < m <= |key| && n !in RefsIn(key[..m]) && !(key[m-1].Ref? && Live(Leaves(t), key[m-1].path))
    ensures var st := Leaves(t);
      && SpliceKey(s, n, 0, key, m) == SpliceKey(s, n, 0, key, m - 1) && n !in RefsIn(key[..m-1])
      && Inline(st, key[..m-1]) + key[m-1..] == Inline(st, key[..m]) + key[m..]
  {
    var st := Leaves(t);
    InlineLast(st, key, m);
    if key[m-1].Ref? { FoundElsewhere(t, n, ListOfOne(y), key[m-1].path); }
    assert key[m-1..] == [key[m-1]] + key[m..];
    hide Put, LeafAt, Leaves, Found, Inline, ReplaceAt;
    Regroup(Inline(st, key[..m-1]), [key[m-1]], key[m..]);
  }

  lemma {:induction false} SpliceOneLive(s: Splicing, t: Node, n: Path, y: Tokens, key: Tokens, level: nat, m: nat)
    returns (y': Tokens)
    requires t.Section? && LeafAt(t, n).Some? && CarriesOne(s, t, n, y, key, level) && Visible(Leaves(t))
    requires 0 < m <= |key| && n !in RefsIn(key[..m]) && key[m-1].Ref? && Live(Leaves(t), key[m-1].path)
    ensures var st := Leaves(t);
      CarriesOne(SpliceKey(s, n, 0, key, m), t, n, y', Inline(st, key[..m]) + key[m..],
                 AtMostTwo(level + LiveCount(st, key[..m])))
    decreases m, 0
  {
    hide *;
    LiveIsLeaf(t, key[m-1].path);
    var st := Leaves(t);
    var now := key[..m-1] + st[key[m-1].path] + key[m..];
    LiveCountLast(st, key, m);
    LiveSplice(s, t, n, y, key, level, m, now);
    WrittenRef(key, m);
    var y1 := ReplacedOne(s, t, n, y, key, level, now);
    y' := SpliceOne(Replaced(s, n, 0, now), t, n, y1, now, AtMostTwo(level + 1), m - 1);
    OneMore(level, LiveCount(st, key[..m-1]));
  }

  lemma LiveIsLeaf(t: Node, r: Path)
    requires Live(Leaves(t), r)
    ensures r in Leaves(t)
  {}

  lemma OneMore(level: nat, count: nat)
    ensures AtMostTwo(AtMostTwo(level + 1) + count) == AtMostTwo(level + (count + 1))
  {}

  lemma WrittenBetween(a: Tokens, found: Tokens, b: Tokens)
    requires Written(found) != ""
    ensures Written(a + found + b) != ""
  {
    WrittenConcat(a + found, b);
    WrittenConcat(a, found);
  }

  lemma LiveSplice(s: Splicing, t: Node, n: Path, y: Tokens, key: Tokens, level: nat, m: nat, now: Tokens)
    requires LeafAt(t, n).Some? && CarriesOne(s, t, n, y, key, level) && Visible(Leaves(t))
    requires 0 < m <= |key| && n !in RefsIn(key[..m]) && key[m-1].Ref? && Live(Leaves(t), key[m-1].path)
    requires now == key[..m-1] + Leaves(t)[key[m-1].path] + key[m..]
    ensures var st := Leaves(t);
      && SpliceKey(s, n, 0, key, m) == SpliceKey(Replaced(s, n, 0, now), n, 0, now, m - 1)
      && Written(now) != "" && m - 1 <= |now| && now[..m-1] == key[..m-1] && n !in RefsIn(key[..m-1])
      && Inline(st, key[..m-1]) + now[m-1..] == Inline(st, key[..m]) + key[m..]
  {
    InlineLive(Leaves(t), key, m);
    FoundElsewhere(t, n, ListOfOne(y), key[m-1].path);
    hide Put, LeafAt, Leaves, Inline, Replaced, Written, AtLevel, WrittenToken, RefsIn, InlineToken, ListText;
    WrittenBetween(key[..m-1], Leaves(t)[key[m-1].path], key[m..]);
  }

  lemma EmptyHasNoRefs()
    ensures RefsIn([]) == {}
  {}

  /** The only key is looked at, unless it is the name of a default parameter. */
  lemma SingleKeys(level: nat, v: Value, y: Tokens, x: Tokens, defaults: set<string>)
    requires AtLevel(level, v, y, x) && PlainNames(defaults)
    ensures KeysOf(v, defaults) == [x] || (KeysOf(v, defaults) == [] && RefsIn(x) == {})
    ensures AtMostTwo(level) == level
  {
    OneKey(x, defaults);
    if HasRef(x) { PercentSigns(x); }
  }

  lemma NothingLive(s: Store, x: Tokens)
    requires RefsIn(x) == {}
    ensures Inline(s, x) == x && LiveCount(s, x) == 0
  {
    InlineOfSettled(s, x);
    LiveCountZero(s, x);
  }

  /** A visit splices as often as there are placeholders that find something. */
  lemma VisitSingle(t: Node, n: Path, v: Value, y: Tokens, x: Tokens, level: nat, defaults: set<string>)
    returns (y': Tokens)
    requires t.Section? && LeafAt(t, n) == Some(ListOfOne(y)) && AtLevel(level, v, y, x)
    requires PlainNames(defaults) && Visible(Leaves(t)) && n !in RefsIn(x)
    ensures var (t', v') := Visit(t, n, v, defaults);
      t' == Put(t, n, ListOfOne(y'))
      && AtLevel(AtMostTwo(level + LiveCount(Leaves(t), x)), v', y', Inline(Leaves(t), x))
  {
    hide KeysOf, LeafAt, Put, Leaves, LiveCount, Inline, SpliceKey, Wanted, Visible, AtLevel, Written, RefsIn;
    var s := Splicing(t, v, KeysOf(v, defaults));
    PutSame(t, n);
    SingleKeys(level, v, y, x, defaults);
    if s.keys == [] {
      NothingLive(Leaves(t), x);
      y' := y;
    } else {
      assert x[..|x|] == x && Inline(Leaves(t), x) + x[|x|..] == Inline(Leaves(t), x);
      assert CarriesOne(s, t, n, y, x, level);
      y' := SpliceOne(s, t, n, y, x, level, |x|);
      SpliceOneKey(s, n);
      if x == [] {
        EmptyHasNoRefs();
        NothingLive(Leaves(t), x);
        y' := y;
      }
    }
  }

  // ---------------------------------------------------------------- the run without the lists

  /** A list of one text with a placeholder. */
  predicate Single(n: Node) { n.Items? && |n.items| == 1 && n.items[0].Text? && HasRef(n.items[0].tokens) }

  /** The tree with the texts of such lists in place of the lists. */
  function Flattened(t: Node): Node {
    if Single(t) then t.items[0]
    else if t.Section? then Section(map k | k in t.entries :: Flattened(t.entries[k]))
    else t
  }

  function Singles(t: Node): set<Path> { set p | p in LeafPaths(t) && Single(LeafOf(t, p)) }

  function FlatValue(v: Value): Value { if v.Many? && |v.texts| == 1 then One(v.texts[0]) else v }

  /** `t` is `u` with lists of one in place of the texts at `singles`. */
  ghost predicate Alike(t: Node, u: Node, singles: set<Path>) {
    && t.Section?
    && (forall p {:trigger LeafAt(t, p)} {:trigger LeafAt(u, p)} :: p !in singles ==> LeafAt(t, p) == LeafAt(u, p))
    && (forall p {:trigger p in singles} :: p in singles ==>
          ListAt(t, p) && LeafAt(u, p).Some? && LeafAt(u, p).value.Text?)
  }

  ghost predicate ListAt(t: Node, p: Path) {
    ElementOf(t, p, 0).Some? && LeafAt(t, p) == Some(ListOfOne(ElementAt(t, p)))
  }

  function ElementAt(t: Node, p: Path): Tokens {
    match ElementOf(t, p, 0)
    case Some(text) => text
    case None => []
  }

  function TextAt(u: Node, p: Path): Tokens { Found(u, p) }

  /** How far the variable has come, if its value in the run without lists is `One(TextAt(u, n))`. */
  ghost function LevelOf(t: Node, u: Node, dv: Variables, n: Path): nat
    requires n in dv
  {
    if dv[n].Many? then 0 else if ElementAt(t, n) == TextAt(u, n) then 1 else 2
  }

  ghost predicate SingleAt(t: Node, u: Node, dv: Variables, n: Path) {
    n in dv && AtLevel(LevelOf(t, u, dv, n), dv[n], ElementAt(t, n), TextAt(u, n))
  }

  /** The variables, with texts for the lists of one. */
  function Flat(dv: Variables, singles: set<Path>): Variables {
    map n | n in dv :: if n in singles then FlatValue(dv[n]) else dv[n]
  }

  /** A state of the run, and the state of the run without lists of one that goes with it. */
  ghost predicate Twins(t: Node, u: Node, dv: Variables, f: Frame, singles: set<Path>) {
    && Alike(t, u, singles) && Hosted(u, Flat(dv, singles), f) && Visible(Leaves(u))
    && dv.Keys == f.own && singles <= f.own && singles !! f.refs
    && forall n {:trigger SingleAt(t, u, dv, n)} :: n in singles ==> SingleAt(t, u, dv, n)
  }

  /** References find the same in both. */
  lemma SameFinds(t: Node, u: Node, singles: set<Path>, ts: Tokens)
    requires Alike(t, u, singles) && RefsIn(ts) !! singles
    ensures forall r :: r in RefsIn(ts) ==> (Live(Leaves(t), r) <==> Live(Leaves(u), r))
    ensures forall r :: r in RefsIn(ts) && Live(Leaves(u), r) ==> r in Leaves(t) && Leaves(t)[r] == Leaves(u)[r]
  {
    forall r | r in RefsIn(ts) ensures r in Leaves(t) <==> r in Leaves(u)
      ensures r in Leaves(u) ==> r in Leaves(t) && Leaves(t)[r] == Leaves(u)[r]
    {
      LeavesExactly(t, r);
      LeavesExactly(u, r);
    }
  }

  lemma {:induction false} SameInline(s: Store, s': Store, ts: Tokens)
    requires forall r :: r in RefsIn(ts) ==> (Live(s, r) <==> Live(s', r))
    requires forall r :: r in RefsIn(ts) && Live(s', r) ==> r in s && s[r] == s'[r]
    ensures Inline(s, ts) == Inline(s', ts) && LiveCount(s, ts) == LiveCount(s', ts)
  {
    if ts != [] { SameInline(s, s', ts[1..]); }
  }

  lemma SameInlineFrom(t: Node, u: Node, singles: set<Path>, leaf: Node)
    requires Alike(t, u, singles) && Full(leaf) && RefsIn(Shown(leaf)) !! singles
    ensures InlineFrom(Leaves(t), leaf, 0) == InlineFrom(Leaves(u), leaf, 0)
  {
    forall i | 0 <= i < |Parts(leaf)| ensures Inline(Leaves(t), Parts(leaf)[i]) == Inline(Leaves(u), Parts(leaf)[i]) {
      PartRefs(leaf, i);
      SameFinds(t, u, singles, Parts(leaf)[i]);
      SameInline(Leaves(t), Leaves(u), Parts(leaf)[i]);
    }
    hide Inline, Leaves, Alike;
    assert leaf.Text? ==> leaf.tokens == Parts(leaf)[0];
    assert leaf.Items? ==> forall i :: 0 <= i < |leaf.items| ==> leaf.items[i].tokens == Parts(leaf)[i];
  }

  predicate IsListOfOne(a: Node) { a.Items? && |a.items| == 1 && a.items[0].Text? }

  lemma PutAt(t: Node, n: Path, a: Node, p: Path)
    requires LeafAt(t, n).Some? && !a.Section?
    ensures LeafAt(Put(t, n, a), p) == if p == n then Some(a) else LeafAt(t, p)
    ensures p != n ==> ElementAt(Put(t, n, a), p) == ElementAt(t, p) && TextAt(Put(t, n, a), p) == TextAt(t, p)
    ensures p == n ==> TextAt(Put(t, n, a), p) == Shown(a)
    ensures p == n && IsListOfOne(a) ==> ListAt(Put(t, n, a), p) && ElementAt(Put(t, n, a), p) == a.items[0].tokens
  {
    PutLeafAt(t, n, a, p);
    LeavesExactly(t, p);
    LeavesExactly(Put(t, n, a), p);
    FoundIsLeaf(t, p);
    FoundIsLeaf(Put(t, n, a), p);
    hide Put, LeafAt, Found, Shown, Leaves;
    assert IsListOfOne(a) ==> a.items == [Text(a.items[0].tokens)];
  }

  /** Two trees with other leaves at the same path. */
  lemma PutAlike(t: Node, u: Node, singles: set<Path>, n: Path, a: Node, b: Node)
    requires Alike(t, u, singles) && LeafAt(t, n).Some? && LeafAt(u, n).Some? && !a.Section? && !b.Section?
    requires if n in singles then IsListOfOne(a) && b.Text? else a == b
    ensures Alike(Put(t, n, a), Put(u, n, b), singles)
  {
    hide Put, LeafAt, ElementAt, TextAt, IsListOfOne, Shown, ListAt;
    var t1, u1 := Put(t, n, a), Put(u, n, b);
    PutSection(t, n, a);
    forall p ensures LeafAt(t1, p) == (if p == n then Some(a) else LeafAt(t, p))
      ensures LeafAt(u1, p) == (if p == n then Some(b) else LeafAt(u, p))
      ensures p in singles ==> ListAt(t1, p)
    {
      PutAt(t, n, a, p);
      PutAt(u, n, b, p);
      if p in singles && p != n { assert ListAt(t, p); SameListAt(t, t1, p); }
    }
  }

  lemma PutSection(t: Node, n: Path, a: Node)
    requires t.Section? && LeafAt(t, n).Some?
    ensures Put(t, n, a).Section?
  {}

  lemma SameListAt(t: Node, t1: Node, p: Path)
    requires LeafAt(t1, p) == LeafAt(t, p)
    ensures ListAt(t1, p) <==> ListAt(t, p)
  {}

  lemma AlikeVisible(t: Node, u: Node, singles: set<Path>)
    requires Alike(t, u, singles) && Visible(Leaves(u))
    ensures Visible(Leaves(t))
  {
    forall r | Live(Leaves(t), r) ensures Written(Leaves(t)[r]) != "" {
      LeavesExactly(t, r);
      LeavesExactly(u, r);
      if r in singles {
        assert ListAt(t, r) && LeafAt(t, r) == Some(ListOfOne(ElementAt(t, r)));
        BracketsShow(LeafAt(t, r).value.items);
      } else {
        assert Live(Leaves(u), r);
      }
    }
  }

  lemma BracketsShow(items: seq<Node>)
    ensures Written(ListText(items)) != ""
  {
    WrittenConcat([Lit("[")] + ItemsText(items), [Lit("]")]);
    assert Written([Lit("]")]) == "]" + Written([]);
  }

  lemma {:induction false} InlineVisible(s: Store, ts: Tokens)
    requires Visible(s) && Written(ts) != ""
    ensures Written(Inline(s, ts)) != ""
  {
    WrittenConcat(InlineToken(s, ts[0]), Inline(s, ts[1..]));
    if ts[0].Ref? && Live(s, ts[0].path) {
    } else if WrittenToken(ts[0]) == "" {
      InlineVisible(s, ts[1..]);
    } else {
      assert Written([ts[0]]) == WrittenToken(ts[0]) + Written([]);
    }
  }

  lemma StepVisible(s: Store, n: Path)
    requires Visible(s)
    ensures Visible(Step(s, n))
  {
    if n in s {
      if Live(s, n) { InlineVisible(s, s[n]); }
      forall r | Live(Step(s, n), r) ensures Written(Step(s, n)[r]) != "" {
        assert Live(s, r);
      }
    }
  }

  // ---------------------------------------------------------------- visits of both

  /** `t1`, `u1` and `dv1` are what a visit of `n` makes of the twins. */
  ghost predicate Visited(t: Node, u: Node, dv: Variables, n: Path, singles: set<Path>, t1: Node, u1: Node,
                          dv1: Variables)
  {
    && (forall p :: p in singles ==> p in dv && p in dv1) && Alike(t1, u1, singles)
    && (forall p {:trigger SingleAt(t1, u1, dv1, p)} :: p in singles ==> SingleAt(t1, u1, dv1, p))
    && (forall p :: p in singles && p != n ==> LevelOf(t1, u1, dv1, p) == LevelOf(t, u, dv, p))
    && (n in singles ==>
          LevelOf(t1, u1, dv1, n) == AtMostTwo(LevelOf(t, u, dv, n) + LiveCount(Leaves(u), TextAt(u, n))))
  }

  /** The variables but `n` are where they were. */
  lemma OthersStay(t: Node, u: Node, dv: Variables, n: Path, v: Value, a: Node, b: Node, p: Path)
    requires LeafAt(t, n).Some? && LeafAt(u, n).Some? && !a.Section? && !b.Section? && SingleAt(t, u, dv, p) && p != n
    ensures var t1, u1, dv1 := Put(t, n, a), Put(u, n, b), dv[n := v];
      SingleAt(t1, u1, dv1, p) && LevelOf(t1, u1, dv1, p) == LevelOf(t, u, dv, p)
  {
    PutAt(t, n, a, p);
    PutAt(u, n, b, p);
    hide Put, LeafAt, ElementAt, TextAt, AtLevel;
  }

  lemma LevelIs(t: Node, u: Node, dv: Variables, n: Path, level: nat)
    requires n in dv && AtLevel(level, dv[n], ElementAt(t, n), TextAt(u, n))
    ensures SingleAt(t, u, dv, n) && LevelOf(t, u, dv, n) == level
  {
    hide ElementAt, TextAt;
  }

  lemma VisitFullTwins(t: Node, u: Node, dv: Variables, n: Path, f: Frame, singles: set<Path>, rank: map<Path, nat>)
    requires Twins(t, u, dv, f, singles) && Unshifted(f) && n in dv && n !in singles && RankedWithin(Leaves(u), rank)
    ensures var (t1, v) := Visit(t, n, dv[n], f.defaults);
      var (u1, w) := Visit(u, n, Flat(dv, singles)[n], f.defaults);
      v == w && Visited(t, u, dv, n, singles, t1, u1, dv[n := v])
  {
    var leaf, leaf' := VisitBoth(t, u, dv, n, f, singles, rank);
    hide *;
    PutAlike(t, u, singles, n, leaf', leaf');
    PutVisited(t, u, dv, n, ValueOf(leaf'), leaf', singles);
  }

  lemma PutVisited(t: Node, u: Node, dv: Variables, n: Path, v: Value, a: Node, singles: set<Path>)
    requires LeafAt(t, n).Some? && LeafAt(u, n).Some? && !a.Section? && n !in singles
    requires forall p {:trigger SingleAt(t, u, dv, p)} :: p in singles ==> SingleAt(t, u, dv, p)
    requires Alike(Put(t, n, a), Put(u, n, a), singles)
    ensures Visited(t, u, dv, n, singles, Put(t, n, a), Put(u, n, a), dv[n := v])
  {
    hide LevelOf, Alike, LeafAt;
    forall p | p in singles
      ensures p in dv && SingleAt(Put(t, n, a), Put(u, n, a), dv[n := v], p)
      ensures LevelOf(Put(t, n, a), Put(u, n, a), dv[n := v], p) == LevelOf(t, u, dv, p)
    {
      assert SingleAt(t, u, dv, p);
      OthersStay(t, u, dv, n, v, a, a, p);
    }
  }

  lemma VisitBoth(t: Node, u: Node, dv: Variables, n: Path, f: Frame, singles: set<Path>, rank: map<Path, nat>)
    returns (leaf: Node, leaf': Node)
    requires Twins(t, u, dv, f, singles) && Unshifted(f) && n in dv && n !in singles && RankedWithin(Leaves(u), rank)
    ensures LeafAt(t, n) == LeafAt(u, n) == Some(leaf) && !leaf'.Section? && Alike(t, u, singles)
    ensures Visit(t, n, dv[n], f.defaults) == (Put(t, n, leaf'), ValueOf(leaf'))
    ensures n in Flat(dv, singles)
    ensures Visit(u, n, Flat(dv, singles)[n], f.defaults) == (Put(u, n, leaf'), ValueOf(leaf'))
    ensures forall p {:trigger SingleAt(t, u, dv, p)} :: p in singles ==> SingleAt(t, u, dv, p)
  {
    hide Visit, Put, InlineFrom, Shown, SingleAt;
    ElementsWanted(u, Flat(dv, singles), n, f);
    leaf := LeafAt(u, n).value;
    assert LeafAt(t, n) == Some(leaf);
    LeavesExactly(u, n);
    NotItself(Leaves(u), rank, n);
    VisitOwn(u, n, leaf, f.defaults);
    VisitOwn(t, n, leaf, f.defaults);
    SameInlineFrom(t, u, singles, leaf);
    leaf' := InlineFrom(Leaves(u), leaf, 0);
  }

  lemma VisitSingleBoth(t: Node, u: Node, dv: Variables, n: Path, f: Frame, singles: set<Path>, rank: map<Path, nat>)
    returns (y': Tokens, x': Tokens)
    requires Twins(t, u, dv, f, singles) && Unshifted(f) && n in singles && n in dv && RankedWithin(Leaves(u), rank)
    ensures LeafAt(t, n).Some? && LeafAt(u, n).Some? && Alike(t, u, singles)
    ensures n in Flat(dv, singles) && Visit(u, n, Flat(dv, singles)[n], f.defaults) == (Put(u, n, Text(x')), One(x'))
    ensures var (t1, v) := Visit(t, n, dv[n], f.defaults);
      t1 == Put(t, n, ListOfOne(y'))
      && AtLevel(AtMostTwo(LevelOf(t, u, dv, n) + LiveCount(Leaves(u), TextAt(u, n))), v, y', x')
    ensures forall p {:trigger SingleAt(t, u, dv, p)} :: p in singles ==> SingleAt(t, u, dv, p)
  {
    var x, y, level := TextAt(u, n), ElementAt(t, n), LevelOf(t, u, dv, n);
    assert ListAt(t, n) && SingleAt(t, u, dv, n);
    hide Visit, Put, ElementAt, LiveCount, Spoilt, LevelOf;
    ElementsWanted(u, Flat(dv, singles), n, f);
    LeavesExactly(u, n);
    assert LeafAt(u, n) == Some(Text(x));
    NotItself(Leaves(u), rank, n);
    VisitOwn(u, n, Text(x), f.defaults);
    AlikeVisible(t, u, singles);
    assert RefsIn(x) <= f.refs;
    SameFinds(t, u, singles, x);
    SameInline(Leaves(t), Leaves(u), x);
    y' := VisitSingle(t, n, dv[n], y, x, level, f.defaults);
    x' := Inline(Leaves(u), x);
  }

  lemma VisitSingleTwins(t: Node, u: Node, dv: Variables, n: Path, f: Frame, singles: set<Path>, rank: map<Path, nat>)
    requires Twins(t, u, dv, f, singles) && Unshifted(f) && n in singles && n in dv && RankedWithin(Leaves(u), rank)
    ensures var (t1, v) := Visit(t, n, dv[n], f.defaults);
      var (u1, w) := Visit(u, n, Flat(dv, singles)[n], f.defaults);
      FlatValue(v) == w && Visited(t, u, dv, n, singles, t1, u1, dv[n := v])
  {
    var y', x' := VisitSingleBoth(t, u, dv, n, f, singles, rank);
    var a, b := ListOfOne(y'), Text(x');
    hide Twins, Unshifted, RankedWithin, Visit, Put, LeafAt, Alike, LevelOf, LiveCount, ElementAt, TextAt, Spoilt, Flat,
      Leaves;
    var (t1, v) := Visit(t, n, dv[n], f.defaults);
    var dv1 := dv[n := v];
    PutAlike(t, u, singles, n, a, b);
    PutAt(t, n, a, n);
    PutAt(u, n, b, n);
    LevelIs(t1, Put(u, n, b), dv1, n, AtMostTwo(LevelOf(t, u, dv, n) + LiveCount(Leaves(u), TextAt(u, n))));
    hide SingleAt, AtLevel, AtMostTwo;
    forall p | p in singles && p != n
      ensures p in dv && SingleAt(t1, Put(u, n, b), dv1, p)
      ensures LevelOf(t1, Put(u, n, b), dv1, p) == LevelOf(t, u, dv, p)
    {
      assert SingleAt(t, u, dv, p);
      OthersStay(t, u, dv, n, v, a, b, p);
    }
  }

  lemma VisitTwins(t: Node, u: Node, dv: Variables, n: Path, f: Frame, singles: set<Path>, rank: map<Path, nat>)
    requires Twins(t, u, dv, f, singles) && Unshifted(f) && n in dv && RankedWithin(Leaves(u), rank)
    ensures var (t1, v) := Visit(t, n, dv[n], f.defaults);
      var (u1, w) := Visit(u, n, Flat(dv, singles)[n], f.defaults);
      && Visited(t, u, dv, n, singles, t1, u1, dv[n := v]) && Flat(dv[n := v], singles) == Flat(dv, singles)[n := w]
      && Twins(t1, u1, dv[n := v], f, singles) && Leaves(u1) == Step(Leaves(u), n)
  {
    hide Alike, Hosted, Unshifted, RankedWithin, Visit, LiveCount, Leaves, LevelOf, SingleAt, Step, Visible, TextAt;
    if n in singles {
      VisitSingleTwins(t, u, dv, n, f, singles, rank);
    } else {
      VisitFullTwins(t, u, dv, n, f, singles, rank);
    }
    VisitOne(u, Flat(dv, singles), n, f, rank);
    StepVisible(Leaves(u), n);
    assert dv[n := Visit(t, n, dv[n], f.defaults).1].Keys == dv.Keys;
  }

  // ---------------------------------------------------------------- lists that stay whole, and spoilt ones

  /** At most one placeholder finds something, and that holds no placeholder that does. */
  ghost predicate OneStep(s: Store, x: Tokens) {
    LiveCount(s, x) <= 1 && forall r :: r in LiveRefs(s, x) ==> LiveRefs(s, s[r]) == {}
  }

  /** What stays whole: not spliced yet, with one splice to come at most, or spliced for good. */
  ghost predicate Safe(t: Node, u: Node, dv: Variables, p: Path)
    requires p in dv
  {
    var s, x := Leaves(u), TextAt(u, p);
    LevelOf(t, u, dv, p) < 2 && (if LevelOf(t, u, dv, p) == 0 then OneStep(s, x) else LiveRefs(s, x) == {})
  }

  /** What is spoilt, or will be with the next visit. */
  ghost predicate Doomed(t: Node, u: Node, dv: Variables, p: Path)
    requires p in dv
  {
    LevelOf(t, u, dv, p) + LiveCount(Leaves(u), TextAt(u, p)) >= 2
  }

  lemma {:induction false} SameCount(s: Store, s': Store, ts: Tokens)
    requires SameLive(s, s')
    ensures LiveCount(s', ts) == LiveCount(s, ts)
  {
    if ts != [] { SameCount(s, s', ts[1..]); }
  }

  lemma {:induction false} InlineSettles(s: Store, ts: Tokens)
    requires forall r :: r in LiveRefs(s, ts) ==> LiveRefs(s, s[r]) == {}
    ensures LiveRefs(s, Inline(s, ts)) == {}
  {
    if ts != [] {
      assert LiveRefs(s, ts[1..]) <= LiveRefs(s, ts);
      InlineSettles(s, ts[1..]);
      var first := InlineToken(s, ts[0]);
      RefsInConcat(first, Inline(s, ts[1..]));
      if ts[0].Ref? && Live(s, ts[0].path) { assert ts[0].path in LiveRefs(s, ts); }
      assert [ts[0]][1..] == [] && RefsIn([]) == {};
      assert LiveRefs(s, first) == {};
    }
  }

  /** Inlining keeps the live placeholders of what is spliced in. */
  lemma {:induction false} InlineBrings(s: Store, ts: Tokens, r: Path)
    requires r in LiveRefs(s, ts)
    ensures LiveRefs(s, s[r]) <= LiveRefs(s, Inline(s, ts))
  {
    RefsInConcat(InlineToken(s, ts[0]), Inline(s, ts[1..]));
    if !(ts[0].Ref? && ts[0].path == r) { InlineBrings(s, ts[1..], r); }
  }

  lemma OneStepKept(s: Store, rank: map<Path, nat>, n: Path, x: Tokens)
    requires Ranked(s, rank) && OneStep(s, x)
    ensures OneStep(Step(s, n), x)
  {
    StepKeeps(s, rank, n);
    SameCount(s, Step(s, n), x);
    SameLiveRefs(s, Step(s, n), x);
    forall r | r in LiveRefs(s, x) ensures LiveRefs(Step(s, n), Step(s, n)[r]) == {} {
      if r == n { InlineOfSettled(s, s[n]); }
      SameLiveRefs(s, Step(s, n), Step(s, n)[r]);
    }
  }

  /** Visiting another variable. */
  lemma OtherVisit(s: Store, rank: map<Path, nat>, n: Path, x: Tokens)
    requires Ranked(s, rank)
    ensures LiveCount(Step(s, n), x) == LiveCount(s, x) && LiveRefs(Step(s, n), x) == LiveRefs(s, x)
    ensures OneStep(s, x) ==> OneStep(Step(s, n), x)
  {
    StepKeeps(s, rank, n);
    SameCount(s, Step(s, n), x);
    SameLiveRefs(s, Step(s, n), x);
    if OneStep(s, x) { OneStepKept(s, rank, n, x); }
  }

  /** Visiting the variable itself. */
  lemma SelfVisit(s: Store, rank: map<Path, nat>, n: Path)
    requires Ranked(s, rank) && n in s
    ensures var s', x, x' := Step(s, n), s[n], Inline(s, s[n]);
      && (LiveCount(s, x) == 0 ==> s' == s && x' == x && LiveRefs(s, x) == {})
      && (OneStep(s, x) ==> LiveRefs(s', x') == {})
      && (forall r :: r in LiveRefs(s, x) && LiveRefs(s, s[r]) != {} ==> LiveCount(s', x') > 0)
  {
    var s', x, x' := Step(s, n), s[n], Inline(s, s[n]);
    StepKeeps(s, rank, n);
    SameLiveRefs(s, s', x');
    LiveCountZero(s, x);
    LiveCountZero(s', x');
    if LiveCount(s, x) == 0 { InlineOfSettled(s, x); }
    if OneStep(s, x) { InlineSettles(s, x); }
    forall r | r in LiveRefs(s, x) && LiveRefs(s, s[r]) != {} ensures LiveCount(s', x') > 0 { InlineBrings(s, x, r); }
  }

  /** What a visit does to the prospects of the list at `p`. */
  ghost predicate ProspectsKept(t: Node, u: Node, dv: Variables, p: Path, t1: Node, u1: Node, dv1: Variables)
    requires p in dv && p in dv1
  {
    && (Safe(t, u, dv, p) ==> Safe(t1, u1, dv1, p))
    && (Doomed(t, u, dv, p) ==> Doomed(t1, u1, dv1, p))
  }

  /** One splice will bring in a placeholder that finds something. */
  ghost predicate Late(t: Node, u: Node, dv: Variables, p: Path)
    requires p in dv
  {
    var s, x := Leaves(u), TextAt(u, p);
    LevelOf(t, u, dv, p) == 0 && exists r :: r in LiveRefs(s, x) && LiveRefs(s, s[r]) != {}
  }

  lemma TextStepped(u: Node, u1: Node, n: Path, p: Path)
    requires p in Leaves(u) && Leaves(u1) == Step(Leaves(u), n)
    ensures TextAt(u, p) == Leaves(u)[p]
    ensures TextAt(u1, p) == if n == p then Inline(Leaves(u), Leaves(u)[p]) else TextAt(u, p)
  {
    FoundIsLeaf(u, p);
    FoundIsLeaf(u1, p);
  }

  lemma SameProspects(t: Node, u: Node, dv: Variables, p: Path, t1: Node, u1: Node, dv1: Variables)
    requires p in dv && p in dv1 && LevelOf(t1, u1, dv1, p) == LevelOf(t, u, dv, p) && TextAt(u1, p) == TextAt(u, p)
    requires var s, s1, x := Leaves(u), Leaves(u1), TextAt(u, p);
      LiveCount(s1, x) == LiveCount(s, x) && LiveRefs(s1, x) == LiveRefs(s, x) && (OneStep(s, x) ==> OneStep(s1, x))
    ensures ProspectsKept(t, u, dv, p, t1, u1, dv1)
  {
    hide LevelOf, TextAt, LiveCount, LiveRefs, OneStep, Leaves;
  }

  lemma OtherProspects(t: Node, u: Node, dv: Variables, n: Path, p: Path, rank: map<Path, nat>,
                       t1: Node, u1: Node, dv1: Variables)
    requires p in dv && p in dv1 && LevelOf(t1, u1, dv1, p) == LevelOf(t, u, dv, p) && n != p
    requires Ranked(Leaves(u), rank) && p in Leaves(u) && Leaves(u1) == Step(Leaves(u), n)
    ensures ProspectsKept(t, u, dv, p, t1, u1, dv1)
  {
    hide *;
    TextStepped(u, u1, n, p);
    OtherVisit(Leaves(u), rank, n, TextAt(u, p));
    SameProspects(t, u, dv, p, t1, u1, dv1);
  }

  lemma SelfProspects(t: Node, u: Node, dv: Variables, p: Path, rank: map<Path, nat>, t1: Node, u1: Node,
                      dv1: Variables)
    requires p in dv && p in dv1 && p in Leaves(u) && Leaves(u1) == Step(Leaves(u), p)
    requires LevelOf(t1, u1, dv1, p) == AtMostTwo(LevelOf(t, u, dv, p) + LiveCount(Leaves(u), TextAt(u, p)))
    requires Ranked(Leaves(u), rank)
    ensures ProspectsKept(t, u, dv, p, t1, u1, dv1)
    ensures Late(t, u, dv, p) ==> Doomed(t1, u1, dv1, p)
  {
    hide Leaves, LevelOf, TextAt, LiveCount, Ranked, LiveRefs, Step, Inline, RefsIn, Safe, Late;
    TextStepped(u, u1, p, p);
    SelfVisit(Leaves(u), rank, p);
    LiveCountZero(Leaves(u), TextAt(u, p));
    SelfSafe(t, u, dv, p, t1, u1, dv1);
    SelfLate(t, u, dv, p, t1, u1, dv1);
  }

  lemma SelfSafe(t: Node, u: Node, dv: Variables, p: Path, t1: Node, u1: Node, dv1: Variables)
    requires p in dv && p in dv1
    requires var s, s1, x, x1 := Leaves(u), Leaves(u1), TextAt(u, p), TextAt(u1, p);
      && LevelOf(t1, u1, dv1, p) == AtMostTwo(LevelOf(t, u, dv, p) + LiveCount(s, x))
      && (LiveCount(s, x) == 0 <==> LiveRefs(s, x) == {}) && (LiveCount(s, x) == 0 ==> s1 == s && x1 == x)
      && (OneStep(s, x) ==> LiveRefs(s1, x1) == {})
    ensures Safe(t, u, dv, p) ==> Safe(t1, u1, dv1, p)
  {
    hide Leaves, LevelOf, TextAt, LiveCount, LiveRefs;
  }

  lemma SelfLate(t: Node, u: Node, dv: Variables, p: Path, t1: Node, u1: Node, dv1: Variables)
    requires p in dv && p in dv1
    requires var s, x := Leaves(u), TextAt(u, p);
      && LevelOf(t1, u1, dv1, p) == AtMostTwo(LevelOf(t, u, dv, p) + LiveCount(s, x))
      && (LiveCount(s, x) == 0 <==> LiveRefs(s, x) == {})
      && (forall r :: r in LiveRefs(s, x) && LiveRefs(s, s[r]) != {} ==> LiveCount(Leaves(u1), TextAt(u1, p)) > 0)
    ensures Late(t, u, dv, p) ==> Doomed(t1, u1, dv1, p)
  {
    hide Leaves, LevelOf, TextAt, LiveCount, LiveRefs;
  }

  lemma VisitProspects(t: Node, u: Node, dv: Variables, n: Path, p: Path, singles: set<Path>, rank: map<Path, nat>,
                       t1: Node, u1: Node, dv1: Variables)
    requires Visited(t, u, dv, n, singles, t1, u1, dv1) && p in singles && Leaves(u1) == Step(Leaves(u), n)
    requires Ranked(Leaves(u), rank) && p in Leaves(u)
    ensures ProspectsKept(t, u, dv, p, t1, u1, dv1)
    ensures n == p && Late(t, u, dv, p) ==> Doomed(t1, u1, dv1, p)
  {
    hide Leaves, Alike, SingleAt, LevelOf, TextAt, LiveCount, Ranked, Late, Doomed, ProspectsKept, Step;
    if n == p {
      SelfProspects(t, u, dv, p, rank, t1, u1, dv1);
    } else {
      OtherProspects(t, u, dv, n, p, rank, t1, u1, dv1);
    }
  }

  // ---------------------------------------------------------------- passes and rounds of both

  lemma SinglesAreLeaves(t: Node, u: Node, singles: set<Path>, p: Path)
    requires Alike(t, u, singles) && p in singles
    ensures p in Leaves(u)
  {
    LeavesExactly(u, p);
  }

  /** A pass over the tree, and the pass over its twin. */
  lemma {:induction false} PassTwins(t: Node, u: Node, dv: Variables, out: Variables, order: seq<Path>, f: Frame,
                                     singles: set<Path>, rank: map<Path, nat>, p: Path)
    requires Twins(t, u, out, f, singles) && Unshifted(f) && RankedWithin(Leaves(u), rank) && StillAs(dv, out, order)
    requires p in singles && p in out && forall n :: n in order ==> n in Flat(dv, singles)
    ensures var (t', out') := Pass(t, dv, out, order, f.defaults);
      var (u', uout') := Pass(u, Flat(dv, singles), Flat(out, singles), order, f.defaults);
      && uout' == Flat(out', singles) && Twins(t', u', out', f, singles) && p in out'
      && ProspectsKept(t, u, out, p, t', u', out')
      && (order != [] && order[0] == p && Late(t, u, out, p) ==> Doomed(t', u', out', p))
    decreases |order|
  {
    hide Twins, Unshifted, RankedWithin, Leaves, Visit, Visited, Safe, Doomed, Late, Step, LevelOf;
    if order != [] {
      var n := order[0];
      FlatAt(dv, out, singles, n);
      VisitTwins(t, u, out, n, f, singles, rank);
      StepWithin(Leaves(u), rank, n);
      TwinsHave(t, u, out, f, singles, p);
      var (t1, v) := Visit(t, n, dv[n], f.defaults);
      var (u1, w) := Visit(u, n, Flat(dv, singles)[n], f.defaults);
      RankedIs(Leaves(u), rank);
      VisitProspects(t, u, out, n, p, singles, rank, t1, u1, out[n := v]);
      StillAsRest(dv, out, order, v);
      hide StillAs, Flat;
      PassTwins(t1, u1, dv, out[n := v], order[1..], f, singles, rank, p);
    }
  }

  lemma FlatAt(dv: Variables, out: Variables, singles: set<Path>, n: Path)
    requires n in dv && n in out && dv[n] == out[n]
    ensures n in Flat(dv, singles) && n in Flat(out, singles) && Flat(dv, singles)[n] == Flat(out, singles)[n]
  {}

  lemma TwinsHave(t: Node, u: Node, dv: Variables, f: Frame, singles: set<Path>, p: Path)
    requires Twins(t, u, dv, f, singles) && p in singles
    ensures p in Leaves(u) && SingleAt(t, u, dv, p) && Alike(t, u, singles) && Hosted(u, Flat(dv, singles), f)
  {
    SinglesAreLeaves(t, u, singles, p);
  }

  lemma RankedIs(s: Store, rank: map<Path, nat>)
    requires RankedWithin(s, rank)
    ensures Ranked(s, rank)
  {}

  lemma StillAsRest(dv: Variables, out: Variables, order: seq<Path>, v: Value)
    requires StillAs(dv, out, order) && order != []
    ensures StillAs(dv, out[order[0] := v], order[1..]) && order[0] in dv && order[0] in out
    ensures dv[order[0]] == out[order[0]]
  {}

  /** If no variable changes in the run, none does in the run without lists. */
  lemma WholePassTwins(t: Node, u: Node, dv: Variables, order: seq<Path>, f: Frame, singles: set<Path>,
                       rank: map<Path, nat>, p: Path)
    requires Twins(t, u, dv, f, singles) && Unshifted(f) && RankedWithin(Leaves(u), rank) && Lists(order, dv)
    requires p in singles && p in dv && Lists(order, Flat(dv, singles))
    ensures var (t1, dv1) := Pass(t, dv, dv, order, f.defaults);
      var (u1, _) := Pass(u, Flat(dv, singles), Flat(dv, singles), order, f.defaults);
      && Twins(t1, u1, dv1, f, singles) && p in dv1 && Lists(order, dv1) && ProspectsKept(t, u, dv, p, t1, u1, dv1)
      && (order[0] == p && Late(t, u, dv, p) ==> Doomed(t1, u1, dv1, p))
      && Leaves(u1) == PassOver(Leaves(u), order) && VisitsLive(Leaves(u), order)
      && RankedWithin(Leaves(u1), Lowered(rank)) && (dv1 == dv || Settled(Leaves(u)) ==> Settled(Leaves(u1)))
  {
    hide Twins, Unshifted, RankedWithin, Leaves, Pass, Safe, Doomed, Late, Step, PassOver, Lowered, VisitsLive, Settled,
      LevelOf, Hosted, Distinct;
    TwinsHave(t, u, dv, f, singles, p);
    PassTwins(t, u, dv, dv, order, f, singles, rank, p);
    PassLists(t, dv, order, f.defaults);
    WholePass(u, Flat(dv, singles), order, f, rank);
    OwnAreVisited(u, Flat(dv, singles), order, f);
  }

  /** The loop ends with the element at its expansion if it was safe, and away from it if it was
      doomed, whatever happens to the others. */
  lemma {:induction false} RoundsTwins(t: Node, u: Node, dv: Variables, order: seq<Path>, left: nat, f: Frame,
                                       singles: set<Path>, rank: map<Path, nat>, top: nat, p: Path)
    requires Twins(t, u, dv, f, singles) && Unshifted(f) && RankedWithin(Leaves(u), rank) && Lists(order, dv)
    requires p in singles && p in dv
    requires Settled(Leaves(u)) || (top < left && forall n :: n in Leaves(u) ==> rank[n] <= top)
    ensures var t' := Rounds(t, dv, order, left, f.defaults).0;
      && Alike(t', f.whole, singles)
      && (Safe(t, u, dv, p) ==> ElementAt(t', p) == TextAt(f.whole, p))
      && (Doomed(t, u, dv, p) || (order[0] == p && Late(t, u, dv, p)) ==> ElementAt(t', p) != TextAt(f.whole, p))
    decreases left
  {
    hide Twins, Unshifted, RankedWithin, Leaves, Pass, Safe, Doomed, Late, Step, PassOver, Lowered, VisitsLive, Settled,
      LevelOf, Hosted, Distinct, Ranked;
    FlatLists(order, dv, singles);
    if left == 0 {
      TwinsSettled(t, u, dv, f, singles, p);
    } else {
      WholePassTwins(t, u, dv, order, f, singles, rank, p);
      var (t1, dv1) := Pass(t, dv, dv, order, f.defaults);
      var (u1, _) := Pass(u, Flat(dv, singles), Flat(dv, singles), order, f.defaults);
      if dv1 == dv {
        TwinsSettled(t1, u1, dv1, f, singles, p);
      } else {
        var top' := TopAfterPass(u, order, u1, f, rank, top);
        RoundsTwins(t1, u1, dv1, order, left - 1, f, singles, Lowered(rank), top', p);
      }
    }
  }

  lemma FlatLists(order: seq<Path>, dv: Variables, singles: set<Path>)
    requires Lists(order, dv)
    ensures Lists(order, Flat(dv, singles))
  {}

  /** Where nothing is left to substitute. */
  lemma TwinsSettled(t: Node, u: Node, dv: Variables, f: Frame, singles: set<Path>, p: Path)
    requires Twins(t, u, dv, f, singles) && Settled(Leaves(u)) && p in singles && p in dv
    ensures u == f.whole && Alike(t, u, singles) && !Late(t, u, dv, p)
    ensures Safe(t, u, dv, p) ==> ElementAt(t, p) == TextAt(u, p)
    ensures Doomed(t, u, dv, p) ==> ElementAt(t, p) != TextAt(u, p)
  {
    TwinsHave(t, u, dv, f, singles, p);
    SettledIsWhole(u, Flat(dv, singles), f);
    LiveCountZero(Leaves(u), TextAt(u, p));
    FoundIsLeaf(u, p);
    hide Twins, Hosted, Alike, Leaves, LiveCount, LiveRefs;
    assert SingleAt(t, u, dv, p);
  }

  // ---------------------------------------------------------------- the main theorem

  lemma {:induction false} FlattenedLeafAt(t: Node, p: Path)
    ensures LeafAt(Flattened(t), p) == if LeafAt(t, p).Some? then Some(Flattened(LeafAt(t, p).value)) else None
    decreases |p|
  {
    if p != [] && t.Section? && p[0] in t.entries { FlattenedLeafAt(t.entries[p[0]], p[1..]); }
  }

  lemma SinglesExactly(t: Node, p: Path)
    ensures p in Singles(t) <==> LeafAt(t, p).Some? && Single(LeafAt(t, p).value)
  {
    LeafPathsExactly(t, p);
  }

  /** With texts in place of the lists of one the tree is ready. All variables are those of the tree,
      no placeholder leads to a list of one with placeholders, and no text is written as nothing. */
  ghost predicate ReadyButLists(t: Node, dv: Variables, defaults: set<string>, refs: set<Path>) {
    && t.Section? && Ready(Flattened(t), Flat(dv, Singles(t)), defaults, refs)
    && dv.Keys == OwnVariables(Flattened(t)).Keys && Singles(t) !! refs && Visible(Leaves(Flattened(t)))
    && forall p :: p in Singles(t) && p in dv ==> dv[p] == Many([ElementAt(t, p)])
  }

  lemma FlattenedAlike(t: Node)
    requires t.Section?
    ensures Alike(t, Flattened(t), Singles(t))
    ensures forall p :: p in Singles(t) ==>
      TextAt(Flattened(t), p) == ElementAt(t, p) && p in OwnVariables(Flattened(t)) && p in Leaves(Flattened(t))
  {
    var u := Flattened(t);
    hide LeafAt, OwnVariables, TextAt, ElementAt, ListAt, Singles, Leaves;
    forall p ensures p !in Singles(t) ==> LeafAt(t, p) == LeafAt(u, p)
      ensures p in Singles(t) ==> ListAt(t, p) && LeafAt(u, p) == Some(Text(ElementAt(t, p)))
      ensures p in Singles(t) ==> p in OwnVariables(u) && p in Leaves(u) && TextAt(u, p) == ElementAt(t, p)
    {
      FlattenedAt(t, p);
    }
  }

  lemma FlattenedAt(t: Node, p: Path)
    ensures var u := Flattened(t);
      && (p !in Singles(t) ==> LeafAt(t, p) == LeafAt(u, p))
      && (p in Singles(t) ==> ListAt(t, p) && LeafAt(u, p) == Some(Text(ElementAt(t, p))) && p in OwnVariables(u)
                              && p in Leaves(u) && TextAt(u, p) == ElementAt(t, p))
  {
    var u := Flattened(t);
    FlattenedLeafAt(t, p);
    SinglesExactly(t, p);
    OwnExactly(u, p);
    LeavesExactly(u, p);
    FoundIsLeaf(u, p);
    hide OwnVariables, Singles, Leaves;
    if p in Singles(t) {
      var items := LeafAt(t, p).value.items;
      assert items == [Text(items[0].tokens)];
    }
  }

  lemma StartTwins(t: Node, dv: Variables, defaults: set<string>, refs: set<Path>)
    requires ReadyButLists(t, dv, defaults, refs)
    ensures var u := Flattened(t);
      Twins(t, u, dv, FrameOf(u, {}, defaults, refs), Singles(t)) && Unshifted(FrameOf(u, {}, defaults, refs))
    ensures forall p :: p in Singles(t) ==> p in dv && LevelOf(t, Flattened(t), dv, p) == 0
  {
    var u, singles := Flattened(t), Singles(t);
    hide Singles, Flattened, OwnVariables, Leaves, Alike, TextAt, ElementAt, Ready, Visible;
    FlattenedAlike(t);
    ReadyIsHosted(u, Flat(dv, singles), defaults, refs, {});
    hide Hosted, Unshifted;
    forall p | p in singles ensures SingleAt(t, u, dv, p) {}
  }

  /** The element at `p` ends as its full expansion. */
  ghost predicate EndsExpanded(t: Node, dv: Variables, order: seq<Path>, defaults: set<string>, p: Path)
    requires Lists(order, dv)
  {
    var r := Substitute(t, dv, order, defaults);
    r.Some? && LeafAt(r.value.0, p) == Some(ListOfOne(FullExpansion(Leaves(Flattened(t)), ElementAt(t, p))))
  }

  predicate StartsWith(order: seq<Path>, p: Path) { order != [] && order[0] == p }

  /** One run. */
  lemma RunOfLists(t: Node, dv: Variables, order: seq<Path>, defaults: set<string>, refs: set<Path>, p: Path)
    requires ReadyButLists(t, dv, defaults, refs) && Lists(order, dv) && p in Singles(t)
    ensures var r, u := Substitute(t, dv, order, defaults), Flattened(t);
      r.Some? && Alike(r.value.0, Rewritten(u, Leaves(u)), Singles(t))
    ensures OneStep(Leaves(Flattened(t)), ElementAt(t, p)) ==> EndsExpanded(t, dv, order, defaults, p)
    ensures StartsWith(order, p) && !OneStep(Leaves(Flattened(t)), ElementAt(t, p)) ==>
      !EndsExpanded(t, dv, order, defaults, p)
  {
    hide *;
    var u, singles := Flattened(t), Singles(t);
    var f, s := FrameOf(u, {}, defaults, refs), Leaves(u);
    FrameHolds(u, defaults, refs);
    FirstOf(order, p);
    StartTwins(t, dv, defaults, refs);
    StartHeights(t, dv, defaults, refs);
    StartProspects(t, dv, defaults, refs, p);
    RoundsTwins(t, u, dv, order, MAX_DEEP + |dv|, f, singles, Heights(s), |dv|, p);
    var t' := Rounds(t, dv, order, MAX_DEEP + |dv|, defaults).0;
    ResultOfRun(t, dv, order, defaults, refs);
    ListEnds(t, t', p);
    EndsIff(t, dv, order, defaults, p);
  }

  lemma FirstOf(order: seq<Path>, p: Path)
    ensures StartsWith(order, p) <==> order != [] && order[0] == p
  {}

  lemma FrameHolds(u: Node, defaults: set<string>, refs: set<Path>)
    ensures var f := FrameOf(u, {}, defaults, refs); f.defaults == defaults && f.whole == Rewritten(u, Leaves(u))
    ensures MAX_DEEP > 0
  {}

  lemma StartProspects(t: Node, dv: Variables, defaults: set<string>, refs: set<Path>, p: Path)
    requires ReadyButLists(t, dv, defaults, refs) && p in Singles(t)
    ensures p in dv && TextAt(Flattened(t), p) == ElementAt(t, p) && p in Leaves(Flattened(t)) && t.Section?
    ensures OneStep(Leaves(Flattened(t)), ElementAt(t, p)) ==> Safe(t, Flattened(t), dv, p)
    ensures !OneStep(Leaves(Flattened(t)), ElementAt(t, p)) ==>
      Doomed(t, Flattened(t), dv, p) || Late(t, Flattened(t), dv, p)
  {
    hide ReadyButLists, Flattened, Singles, ElementAt, TextAt, LevelOf, LiveCount, LiveRefs, Leaves;
    StartTwins(t, dv, defaults, refs);
    SectionOf(t, dv, defaults, refs);
    FlattenedAlike(t);
  }

  lemma SectionOf(t: Node, dv: Variables, defaults: set<string>, refs: set<Path>)
    requires ReadyButLists(t, dv, defaults, refs)
    ensures t.Section?
  {}

  lemma ResultOfRun(t: Node, dv: Variables, order: seq<Path>, defaults: set<string>, refs: set<Path>)
    requires ReadyButLists(t, dv, defaults, refs) && Lists(order, dv)
    ensures var r := Substitute(t, dv, order, defaults);
      r.Some? && r.value.0 == Rounds(t, dv, order, MAX_DEEP + |dv|, defaults).0
  {
    hide ReadyButLists, Rounds, Lists, Cleaned;
    NothingUnhashable(t, dv, defaults, refs);
  }

  lemma EndsIff(t: Node, dv: Variables, order: seq<Path>, defaults: set<string>, p: Path)
    requires Lists(order, dv)
    requires var r, e := Substitute(t, dv, order, defaults), FullExpansion(Leaves(Flattened(t)), ElementAt(t, p));
      r.Some? && LeafAt(r.value.0, p) == Some(ListOfOne(ElementAt(r.value.0, p)))
    ensures EndsExpanded(t, dv, order, defaults, p) <==>
      ElementAt(Substitute(t, dv, order, defaults).value.0, p) == FullExpansion(Leaves(Flattened(t)), ElementAt(t, p))
  {
    hide Substitute, Leaves, Flattened, ElementAt, FullExpansion, LeafAt, Lists;
  }

  lemma ListEnds(t: Node, t': Node, p: Path)
    requires var u := Flattened(t); Alike(t', Rewritten(u, Leaves(u)), Singles(t)) && TextAt(u, p) == ElementAt(t, p)
    requires p in Singles(t) && p in Leaves(Flattened(t)) && t.Section?
    ensures var u := Flattened(t); TextAt(Rewritten(u, Leaves(u)), p) == FullExpansion(Leaves(u), ElementAt(t, p))
    ensures LeafAt(t', p) == Some(ListOfOne(ElementAt(t', p)))
  {
    assert ListAt(t', p);
    var u := Flattened(t);
    FlattenedAlike(t);
    RewrittenLeafAt(u, Leaves(u), p);
    LeavesExactly(u, p);
    FoundIsLeaf(u, p);
    LeavesExactly(Rewritten(u, Leaves(u)), p);
    FoundIsLeaf(Rewritten(u, Leaves(u)), p);
  }

  lemma NothingUnhashable(t: Node, dv: Variables, defaults: set<string>, refs: set<Path>)
    requires ReadyButLists(t, dv, defaults, refs)
    ensures forall n :: n in dv ==> !dv[n].Unhashable?
  {
    hide Singles, Flattened, OwnVariables, Leaves, Registered, Acyclic, Unshifted, RefsAmong, NamesLeaf;
    forall n | n in dv ensures !dv[n].Unhashable? { assert ValueAmong(Flat(dv, Singles(t))[n], refs); }
  }

  lemma StartHeights(t: Node, dv: Variables, defaults: set<string>, refs: set<Path>)
    requires ReadyButLists(t, dv, defaults, refs)
    ensures var s := Leaves(Flattened(t));
      Acyclic(RefGraph(s)) && RankedWithin(s, Heights(s)) && forall n :: n in s ==> Heights(s)[n] <= |dv|
  {
    hide *;
    FlatIsReady(t, dv, defaults, refs);
    ReadyHeights(Flattened(t), Flat(dv, Singles(t)), defaults, refs);
  }

  lemma FlatIsReady(t: Node, dv: Variables, defaults: set<string>, refs: set<Path>)
    requires ReadyButLists(t, dv, defaults, refs)
    ensures Ready(Flattened(t), Flat(dv, Singles(t)), defaults, refs) && |Flat(dv, Singles(t))| == |dv|
  {
    hide Ready, Singles, Flattened, Leaves, Visible, ElementAt, OwnVariables, FlatValue;
    var flat := Flat(dv, Singles(t));
    assert flat.Keys == dv.Keys && |flat.Keys| == |flat| && |dv.Keys| == |dv|;
  }

  lemma {:induction false} Enumerated(names: set<Path>) returns (order: seq<Path>)
    ensures Distinct(order) && forall n :: n in order <==> n in names
  {
    order := [];
    if names != {} {
      var n :| n in names;
      var rest := Enumerated(names - {n});
      order := [n] + rest;
      assert order[1..] == rest;
    }
  }

  lemma StartingWith(dv: Variables, p: Path) returns (order: seq<Path>)
    requires p in dv
    ensures Lists(order, dv) && StartsWith(order, p)
  {
    var rest := Enumerated(dv.Keys - {p});
    order := [p] + rest;
    assert order[1..] == rest;
  }

  /** The element of a list of one ends fully expanded in every order of visits if and only if at most
      one of its placeholders finds something, and that holds no placeholder that does. */
  lemma OneElementListsExactly(t: Node, dv: Variables, defaults: set<string>, refs: set<Path>, p: Path)
    requires ReadyButLists(t, dv, defaults, refs) && p in Singles(t)
    ensures (forall order :: Lists(order, dv) ==> EndsExpanded(t, dv, order, defaults, p))
      <==> OneStep(Leaves(Flattened(t)), ElementAt(t, p))
  {
    hide ReadyButLists, Singles, EndsExpanded, OneStep, Leaves, Flattened, ElementAt, Distinct;
    forall order | Lists(order, dv)
      ensures OneStep(Leaves(Flattened(t)), ElementAt(t, p)) ==> EndsExpanded(t, dv, order, defaults, p)
    {
      RunOfLists(t, dv, order, defaults, refs, p);
    }
    SingleIsRegistered(t, dv, defaults, refs, p);
    var order := StartingWith(dv, p);
    RunOfLists(t, dv, order, defaults, refs, p);
  }

  lemma SingleIsRegistered(t: Node, dv: Variables, defaults: set<string>, refs: set<Path>, p: Path)
    requires ReadyButLists(t, dv, defaults, refs) && p in Singles(t)
    ensures p in dv
  {
    FlattenedAlike(t);
  }

  /** Whatever becomes of lists of one, all other leaves end fully expanded. */
  lemma OtherLeavesExpand(t: Node, dv: Variables, order: seq<Path>, defaults: set<string>, refs: set<Path>, p: Path,
                          q: Path)
    requires ReadyButLists(t, dv, defaults, refs) && Lists(order, dv) && p in Singles(t) && q !in Singles(t)
    ensures var r, u := Substitute(t, dv, order, defaults), Flattened(t);
      r.Some? && LeafAt(r.value.0, q) == LeafAt(Rewritten(u, Leaves(u)), q)
  {
    RunOfLists(t, dv, order, defaults, refs, p);
  }
}

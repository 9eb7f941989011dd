/** Trees of texts and lists under substitution: what one visit of a variable does to them, and the
    fully expanded tree that no visit changes. */
module Rewriting {
  import opened Options
  import opened ConfigTree
  import opened Flatten
  import opened Sequences
  import opened Placeholders
  import opened Expansion
  import opened Substitution

  // ---------------------------------------------------------------- the texts of the leaves

  /** What the leaves are spliced as, under their paths. */
  ghost function Leaves(t: Node): Store {
    map n | n in LeafPaths(t) :: Found(t, n)
  }

  lemma LeavesExactly(t: Node, p: Path)
    ensures p in Leaves(t) <==> LeafAt(t, p).Some?
    ensures p in Leaves(t) ==> Leaves(t)[p] == Shown(LeafAt(t, p).value)
  {
    LeafPathsExactly(t, p);
  }

  lemma FoundIsLeaf(t: Node, r: Path)
    ensures Found(t, r) == if r in Leaves(t) then Leaves(t)[r] else []
  {
    LeavesExactly(t, r);
  }

  /** The tree with another leaf at the path. */
  function Put(t: Node, p: Path, x: Node): Node
    decreases |p|
  {
    if p == [] then x
    else if t.Section? && p[0] in t.entries then Section(t.entries[p[0] := Put(t.entries[p[0]], p[1..], x)])
    else t
  }

  lemma {:induction false} PutLeafAt(t: Node, p: Path, x: Node, q: Path)
    requires LeafAt(t, p).Some? && !x.Section?
    ensures LeafAt(Put(t, p, x), q) == if q == p then Some(x) else LeafAt(t, q)
    decreases |p|
  {
    if p != [] {
      PutLeafAt(t.entries[p[0]], p[1..], x, if q != [] then q[1..] else []);
      if q != [] && q[0] == p[0] { assert q == [q[0]] + q[1..] && p == [p[0]] + p[1..]; }
    }
  }

  lemma {:induction false} PutTwice(t: Node, p: Path, x: Node, y: Node)
    requires LeafAt(t, p).Some? && !x.Section?
    ensures Put(Put(t, p, x), p, y) == Put(t, p, y)
    decreases |p|
  {
    if p != [] { PutTwice(t.entries[p[0]], p[1..], x, y); }
  }

  lemma {:induction false} PutSame(t: Node, p: Path)
    requires LeafAt(t, p).Some?
    ensures Put(t, p, LeafAt(t, p).value) == t
    decreases |p|
  {
    if p != [] {
      PutSame(t.entries[p[0]], p[1..]);
      assert t.entries[p[0] := t.entries[p[0]]] == t.entries;
    }
  }

  lemma PutLeaves(t: Node, p: Path, x: Node)
    requires LeafAt(t, p).Some? && !x.Section?
    ensures Leaves(Put(t, p, x)) == Leaves(t)[p := Shown(x)]
  {
    forall q ensures q in Leaves(Put(t, p, x)) <==> q == p || q in Leaves(t)
      ensures q in Leaves(Put(t, p, x)) ==> Leaves(Put(t, p, x))[q] == if q == p then Shown(x) else Leaves(t)[q]
    {
      PutLeafAt(t, p, x, q);
      LeavesExactly(t, q);
      LeavesExactly(Put(t, p, x), q);
    }
    hide Leaves, LeafAt, Put;
  }

  // ---------------------------------------------------------------- variables and their parts

  /** A text, or a list of at least two texts that are not empty. */
  predicate Full(leaf: Node) {
    leaf.Text? || (leaf.Items? && |leaf.items| >= 2
                   && forall i :: 0 <= i < |leaf.items| ==> leaf.items[i].Text? && leaf.items[i].tokens != [])
  }

  /** What is registered for a leaf. */
  function ValueOf(leaf: Node): Value {
    match leaf
    case Text(tokens) => One(tokens)
    case Items(items) =>
      if forall i :: 0 <= i < |items| ==> items[i].Text? then
        Many(seq(|items|, i requires 0 <= i < |items| => items[i].tokens))
      else Unhashable
    case Section(_) => Unhashable
  }

  function Parts(leaf: Node): seq<Tokens>
    requires Full(leaf)
  {
    match leaf
    case Text(tokens) => [tokens]
    case Items(items) => seq(|items|, i requires 0 <= i < |items| => items[i].tokens)
  }

  function WithPart(leaf: Node, i: nat, now: Tokens): Node
    requires Full(leaf) && i < |Parts(leaf)|
  {
    match leaf
    case Text(_) => Text(now)
    case Items(items) => Items(items[i := Text(now)])
  }

  /** The leaf with every text from `pos` on inlined. */
  ghost function InlineFrom(s: Store, leaf: Node, pos: nat): Node {
    match leaf
    case Text(tokens) => if pos == 0 then Text(Inline(s, tokens)) else leaf
    case Items(items) => Items(seq(|items|, i requires 0 <= i < |items| =>
        if i >= pos && items[i].Text? then Text(Inline(s, items[i].tokens)) else items[i]))
    case Section(_) => leaf
  }

  // ---------------------------------------------------------------- visiting an own variable

  /** The splicing of the variable `n` has come to a leaf. */
  ghost predicate Carries(s: Splicing, t: Node, n: Path, leaf: Node) {
    && Full(leaf) && s.tree == Put(t, n, leaf) && s.value == ValueOf(leaf) && |s.keys| == |Parts(leaf)|
    && (leaf.Items? ==> s.keys == Parts(leaf))
  }

  lemma {:induction false} ReplaceAtIsPut(t: Node, p: Path, i: nat, leaf: Node, now: Tokens)
    requires t.Section? && LeafAt(t, p) == Some(leaf) && Full(leaf) && i < |Parts(leaf)|
    requires Parts(leaf)[i] != []
    ensures ReplaceAt(t, p, ValueOf(leaf), i, now) == Put(t, p, WithPart(leaf, i, now))
    decreases |p|
  {
    var child := t.entries[p[0]];
    if child.Section? {
      ReplaceAtIsPut(child, p[1..], i, leaf, now);
    } else {
      assert At(t, p) == At(child, p[1..]);
      assert p[1..] == [] && child == leaf;
    }
  }

  lemma ReplacedCarries(s: Splicing, t: Node, n: Path, leaf: Node, i: nat, now: Tokens)
    requires t.Section? && LeafAt(t, n).Some? && Carries(s, t, n, leaf) && i < |Parts(leaf)| && Parts(leaf)[i] != []
    requires now != []
    ensures Carries(Replaced(s, n, i, now), t, n, WithPart(leaf, i, now))
    ensures Parts(WithPart(leaf, i, now)) == Parts(leaf)[i := now]
  {
    PutLeafAt(t, n, leaf, n);
    ReplaceAtIsPut(s.tree, n, i, leaf, now);
    PutTwice(t, n, leaf, WithPart(leaf, i, now));
    hide Put, ReplaceAt, LeafAt;
    assert Parts(WithPart(leaf, i, now)) == Parts(leaf)[i := now];
  }

  lemma FoundElsewhere(t: Node, n: Path, leaf: Node, r: Path)
    requires LeafAt(t, n).Some? && !leaf.Section? && r != n
    ensures Found(Put(t, n, leaf), r) == if Live(Leaves(t), r) then Leaves(t)[r] else []
  {
    PutLeaves(t, n, leaf);
    FoundIsLeaf(Put(t, n, leaf), r);
  }

  lemma InlineLast(s: Store, key: Tokens, m: nat)
    requires 0 < m <= |key|
    ensures Inline(s, key[..m]) == Inline(s, key[..m-1]) + InlineToken(s, key[m-1])
    ensures RefsIn(key[..m]) == RefsIn(key[..m-1]) + if key[m-1].Ref? then {key[m-1].path} else {}
  {
    assert key[..m] == key[..m-1] + [key[m-1]];
    InlineSnoc(s, key[..m-1], key[m-1]);
    RefsInConcat(key[..m-1], [key[m-1]]);
    assert RefsIn([key[m-1]]) == (if key[m-1].Ref? then {key[m-1].path} else {}) + RefsIn([]);
  }

  /** Splicing in what the last of the first `m` tokens finds. */
  lemma InlineLive(s: Store, key: Tokens, m: nat)
    requires 0 < m <= |key| && key[m-1].Ref? && Live(s, key[m-1].path)
    ensures var now := key[..m-1] + s[key[m-1].path] + key[m..];
      && m - 1 <= |now| && now[..m-1] == key[..m-1]
      && RefsIn(key[..m-1]) <= RefsIn(key[..m]) && key[m-1].path in RefsIn(key[..m])
      && Inline(s, now[..m-1]) + now[m-1..] == Inline(s, key[..m]) + key[m..]
  {
    InlineLast(s, key, m);
    var found := s[key[m-1].path];
    var now := key[..m-1] + found + key[m..];
    assert now[..m-1] == key[..m-1] && now[m-1..] == found + key[m..];
    hide Inline, RefsIn;
    Regroup(Inline(s, key[..m-1]), found, key[m..]);
  }

  lemma {:induction false} SpliceLive(s: Splicing, t: Node, n: Path, leaf: Node, i: nat, m: nat)
    requires t.Section? && LeafAt(t, n).Some? && Carries(s, t, n, leaf) && i < |Parts(leaf)|
    requires 0 < m <= |Parts(leaf)[i]| && n !in RefsIn(Parts(leaf)[i][..m])
    requires Parts(leaf)[i][m-1].Ref? && Live(Leaves(t), Parts(leaf)[i][m-1].path)
    ensures var key := Parts(leaf)[i];
      Carries(SpliceKey(s, n, i, key, m), t, n, WithPart(leaf, i, Inline(Leaves(t), key[..m]) + key[m..]))
    decreases m, 0
  {
    var key, st := Parts(leaf)[i], Leaves(t);
    InlineLive(st, key, m);
    FoundElsewhere(t, n, leaf, key[m-1].path);
    var now := key[..m-1] + st[key[m-1].path] + key[m..];
    ReplacedCarries(s, t, n, leaf, i, now);
    hide Put, LeafAt, Leaves, Found, Inline, ReplaceAt, WithPart;
    SpliceKeyInlines(Replaced(s, n, i, now), t, n, WithPart(leaf, i, now), i, m - 1);
    WithPartTwice(leaf, i, now, Inline(st, now[..m-1]) + now[m-1..]);
  }

  lemma WithPartTwice(leaf: Node, i: nat, a: Tokens, b: Tokens)
    requires Full(leaf) && i < |Parts(leaf)| && a != []
    ensures Full(WithPart(leaf, i, a)) && |Parts(WithPart(leaf, i, a))| == |Parts(leaf)|
    ensures WithPart(WithPart(leaf, i, a), i, b) == WithPart(leaf, i, b)
  {}

  /** Splicing the placeholders of one part, right to left, inlines it. */
  lemma {:induction false} SpliceKeyInlines(s: Splicing, t: Node, n: Path, leaf: Node, i: nat, m: nat)
    requires t.Section? && LeafAt(t, n).Some? && Carries(s, t, n, leaf) && i < |Parts(leaf)|
    requires m <= |Parts(leaf)[i]| && n !in RefsIn(Parts(leaf)[i][..m])
    ensures var key := Parts(leaf)[i];
      Carries(SpliceKey(s, n, i, key, m), t, n, WithPart(leaf, i, Inline(Leaves(t), key[..m]) + key[m..]))
    decreases m, 1
  {
    if m == 0 {
      InlineNothing(Leaves(t), Parts(leaf)[i]);
      WithPartSame(leaf, i);
    } else if Parts(leaf)[i][m-1].Ref? && Live(Leaves(t), Parts(leaf)[i][m-1].path) {
      SpliceLive(s, t, n, leaf, i, m);
    } else {
      SpliceSkips(s, t, n, leaf, i, m);
      hide Carries, LeafAt, Leaves, Live, Parts, WithPart, SpliceKey;
      SpliceKeyInlines(s, t, n, leaf, i, m - 1);
    }
  }

  lemma InlineNothing(st: Store, key: Tokens)
    ensures Inline(st, key[..0]) + key[0..] == key
  {}

  lemma WithPartSame(leaf: Node, i: nat)
    requires Full(leaf) && i < |Parts(leaf)|
    ensures WithPart(leaf, i, Parts(leaf)[i]) == leaf
  {}

  lemma SpliceSkips(s: Splicing, t: Node, n: Path, leaf: Node, i: nat, m: nat)
    requires t.Section? && LeafAt(t, n).Some? && Carries(s, t, n, leaf) && i < |Parts(leaf)|
    requires 0 < m <= |Parts(leaf)[i]| && n !in RefsIn(Parts(leaf)[i][..m])
    requires !(Parts(leaf)[i][m-1].Ref? && Live(Leaves(t), Parts(leaf)[i][m-1].path))
    ensures var key, st := Parts(leaf)[i], Leaves(t);
      && SpliceKey(s, n, i, key, m) == SpliceKey(s, n, i, key, m - 1)
      && n !in RefsIn(key[..m-1]) && Inline(st, key[..m-1]) + key[m-1..] == Inline(st, key[..m]) + key[m..]
  {
    var key, st := Parts(leaf)[i], Leaves(t);
    InlineLast(st, key, m);
    if key[m-1].Ref? { FoundElsewhere(t, n, leaf, key[m-1].path); }
    assert key[m-1..] == [key[m-1]] + key[m..];
    hide Put, LeafAt, Leaves, Found, Inline, ReplaceAt;
    Regroup(Inline(st, key[..m-1]), [key[m-1]], key[m..]);
  }

  /** The keys from `pos` on are still as in the leaf, and none of them names the variable itself. */
  ghost predicate Waiting(s: Splicing, n: Path, leaf: Node, pos: nat)
    requires Full(leaf)
  {
    && |s.keys| == |Parts(leaf)|
    && forall j :: pos <= j < |s.keys| ==> s.keys[j] == Parts(leaf)[j] && n !in RefsIn(Parts(leaf)[j])
  }

  lemma {:induction false} SpliceKeysInline(s: Splicing, t: Node, n: Path, leaf: Node, pos: nat)
    requires t.Section? && LeafAt(t, n).Some? && Carries(s, t, n, leaf)
    requires pos <= |s.keys| && Waiting(s, n, leaf, pos)
    ensures Carries(SpliceKeys(s, n, pos, pos), t, n, InlineFrom(Leaves(t), leaf, pos))
    decreases |s.keys| - pos
  {
    if pos == |s.keys| {
      InlineFromEnd(Leaves(t), leaf);
    } else if s.keys[pos] == [] {
      assert leaf.Text? && SpliceKeys(s, n, pos, pos) == SpliceKeys(s, n, pos + 1, pos) == s;
      assert Inline(Leaves(t), []) == [];
    } else {
      var key, st := Parts(leaf)[pos], Leaves(t);
      var s1, leaf1 := SpliceKey(s, n, pos, key, |key|), WithPart(leaf, pos, Inline(st, key));
      assert key[..|key|] == key && Inline(st, key) + key[|key|..] == Inline(st, key);
      SpliceKeyInlines(s, t, n, leaf, pos, |key|);
      InlineFromStep(st, leaf, pos);
      StillWaiting(s, s1, n, leaf, pos, Inline(st, key));
      hide Carries, LeafAt, Leaves, SpliceKey, InlineFrom, Waiting, Inline, WithPart;
      SpliceKeysInline(s1, t, n, leaf1, pos + 1);
    }
  }

  lemma StillWaiting(s: Splicing, s1: Splicing, n: Path, leaf: Node, pos: nat, now: Tokens)
    requires Full(leaf) && pos < |Parts(leaf)| && Waiting(s, n, leaf, pos) && |s1.keys| == |s.keys|
    requires var leaf1 := WithPart(leaf, pos, now); Full(leaf1) && (leaf1.Items? ==> s1.keys == Parts(leaf1))
    ensures Waiting(s1, n, WithPart(leaf, pos, now), pos + 1)
  {
    var leaf1 := WithPart(leaf, pos, now);
    assert Parts(leaf1) == Parts(leaf)[pos := now];
    forall j | pos < j < |s1.keys| ensures s1.keys[j] == Parts(leaf1)[j] && n !in RefsIn(Parts(leaf1)[j]) {
      assert s.keys[j] == Parts(leaf)[j];
    }
  }

  lemma InlineFromEnd(st: Store, leaf: Node)
    requires Full(leaf)
    ensures InlineFrom(st, leaf, |Parts(leaf)|) == leaf
  {}

  lemma InlineFromStep(st: Store, leaf: Node, pos: nat)
    requires Full(leaf) && pos < |Parts(leaf)|
    ensures InlineFrom(st, WithPart(leaf, pos, Inline(st, Parts(leaf)[pos])), pos + 1) == InlineFrom(st, leaf, pos)
  {}

  // ---------------------------------------------------------------- lists as they are written

  function TextsOf(items: seq<Node>): seq<Tokens>
    requires forall i :: 0 <= i < |items| ==> items[i].Text?
  {
    seq(|items|, i requires 0 <= i < |items| => items[i].tokens)
  }

  lemma {:induction false} ItemsTextRefs(items: seq<Node>, i: nat)
    requires i < |items| && items[i].Text?
    ensures RefsIn(items[i].tokens) <= RefsIn(ItemsText(items))
    decreases |items|
  {
    var n := |items| - 1;
    if i < n { ItemsTextRefs(items[..n], i); }
    var last, quote: Tokens := ItemText(items[n]), [Lit("'")];
    hide ItemText;
    var glue := if n == 0 then [] else [Lit(", ")];
    RefsInConcat(ItemsText(items[..n]) + glue, last);
    RefsInConcat(ItemsText(items[..n]), glue);
    if i == n { QuotedRefs(items[n].tokens); }
  }

  lemma QuotedRefs(ts: Tokens)
    ensures RefsIn(ItemText(Text(ts))) == RefsIn(ts)
  {
    var quote: Tokens := [Lit("'")];
    RefsInConcat(quote + ts, quote);
    RefsInConcat(quote, ts);
  }

  lemma {:induction false} ItemsTextInline(s: Store, items: seq<Node>)
    requires forall i :: 0 <= i < |items| ==> items[i].Text?
    ensures ItemsText(InlineFrom(s, Items(items), 0).items) == Inline(s, ItemsText(items))
  {
    hide *;
    if items == [] {
      NoItemsInline(s);
    } else {
      var n := |items| - 1;
      ItemsTextInline(s, items[..n]);
      InlineQuoted(s, items[n].tokens);
      ItemsTextLast(items);
      InlineFromLast(s, items);
      ItemsTextLast(InlineFrom(s, Items(items), 0).items);
      InlineConcat(s, ItemsText(items[..n]) + Comma(n), ItemText(items[n]));
      InlineConcat(s, ItemsText(items[..n]), Comma(n));
      CommaInline(s, n);
      assert items[n] == Text(items[n].tokens);
    }
  }

  lemma NoItemsInline(s: Store)
    ensures ItemsText(InlineFrom(s, Items([]), 0).items) == Inline(s, ItemsText([]))
  {}

  function Comma(n: nat): Tokens { if n == 0 then [] else [Lit(", ")] }

  lemma ItemsTextLast(items: seq<Node>)
    requires items != []
    ensures var n := |items| - 1; ItemsText(items) == ItemsText(items[..n]) + Comma(n) + ItemText(items[n])
  {}

  lemma InlineFromLast(s: Store, items: seq<Node>)
    requires items != [] && forall i :: 0 <= i < |items| ==> items[i].Text?
    ensures InlineFrom(s, Items(items), 0).Items? && InlineFrom(s, Items(items[..|items|-1]), 0).Items?
    ensures var items', n := InlineFrom(s, Items(items), 0).items, |items| - 1;
      && |items'| == |items| && items'[n] == Text(Inline(s, items[n].tokens))
      && items'[..n] == InlineFrom(s, Items(items[..n]), 0).items
  {
    hide Inline;
  }

  lemma CommaInline(s: Store, n: nat)
    ensures Inline(s, Comma(n)) == Comma(n)
  {
    GroundInline(s, ", ");
  }

  lemma GroundInline(s: Store, l: string)
    ensures Inline(s, [Lit(l)]) == [Lit(l)] && Inline(s, []) == []
  {}

  lemma InlineQuoted(s: Store, ts: Tokens)
    ensures ItemText(Text(Inline(s, ts))) == Inline(s, ItemText(Text(ts)))
  {
    var quote: Tokens := [Lit("'")];
    GroundInline(s, "'");
    InlineConcat(s, quote + ts, quote);
    InlineConcat(s, quote, ts);
  }

  /** Inlining the parts of a leaf inlines what it is spliced as. */
  lemma ShownInline(s: Store, leaf: Node)
    requires Full(leaf)
    ensures Shown(InlineFrom(s, leaf, 0)) == Inline(s, Shown(leaf))
  {
    if leaf.Items? {
      var items := leaf.items;
      ItemsTextInline(s, items);
      GroundInline(s, "[");
      GroundInline(s, "]");
      InlineConcat(s, [Lit("[")] + ItemsText(items), [Lit("]")]);
      InlineConcat(s, [Lit("[")], ItemsText(items));
    }
  }

  lemma PartRefs(leaf: Node, i: nat)
    requires Full(leaf) && i < |Parts(leaf)|
    ensures RefsIn(Parts(leaf)[i]) <= RefsIn(Shown(leaf))
  {
    if leaf.Items? {
      ItemsTextRefs(leaf.items, i);
      RefsInConcat([Lit("[")] + ItemsText(leaf.items), [Lit("]")]);
      RefsInConcat([Lit("[")], ItemsText(leaf.items));
    }
  }

  // ---------------------------------------------------------------- a whole visit

  /** The names of default parameters are no placeholders. */
  predicate PlainNames(defaults: set<string>) { forall d :: d in defaults ==> '%' !in d }

  predicate NoneDefault(keys: seq<Tokens>, defaults: set<string>) {
    forall i :: 0 <= i < |keys| ==> Written(keys[i]) !in defaults
  }

  lemma {:induction false} AllWanted(keys: seq<Tokens>, defaults: set<string>)
    requires NoneDefault(keys, defaults)
    ensures Wanted(keys, defaults) == keys
  {
    if keys != [] { AllWanted(keys[1..], defaults); }
  }

  lemma OneKey(text: Tokens, defaults: set<string>)
    ensures Wanted([text], defaults) == if Written(text) in defaults then [] else [text]
  {
    assert [text][1..] == [] && Wanted([], defaults) == [];
  }

  /** The splicing of a variable with one key. */
  lemma SpliceOneKey(s: Splicing, n: Path)
    requires |s.keys| == 1
    ensures SpliceKeys(s, n, 0, 0) == if s.keys[0] == [] then s else SpliceKey(s, n, 0, s.keys[0], |s.keys[0]|)
  {
    if s.keys[0] == [] {
      assert SpliceKeys(s, n, 0, 0) == SpliceKeys(s, n, 1, 0);
    } else {
      var r := SpliceKey(s, n, 0, s.keys[0], |s.keys[0]|);
      assert SpliceKeys(s, n, 0, 0) == SpliceKeys(r, n, 1, 1);
    }
  }

  lemma {:induction false} PercentSigns(ts: Tokens)
    requires HasRef(ts)
    ensures '%' in Written(ts)
  {
    if ts[0].Ref? {
      assert WrittenToken(ts[0])[0] == '%' && Written(ts)[0] == '%';
    } else {
      PercentSigns(ts[1..]);
    }
  }

  /** The variable is registered with its leaf, and all its keys are looked at. */
  ghost predicate Visitable(t: Node, n: Path, leaf: Node, defaults: set<string>) {
    && t.Section? && LeafAt(t, n) == Some(leaf) && Full(leaf) && PlainNames(defaults)
    && (leaf.Items? ==> NoneDefault(Parts(leaf), defaults))
  }

  /** Visiting a variable inlines its leaf and keeps it registered. */
  lemma VisitOwn(t: Node, n: Path, leaf: Node, defaults: set<string>)
    requires Visitable(t, n, leaf, defaults) && n !in RefsIn(Shown(leaf))
    ensures var leaf' := InlineFrom(Leaves(t), leaf, 0);
      Full(leaf') && Visit(t, n, ValueOf(leaf), defaults) == (Put(t, n, leaf'), ValueOf(leaf'))
  {
    var keys := KeysOf(ValueOf(leaf), defaults);
    PutSame(t, n);
    VisitedKeys(leaf, defaults);
    if keys == Parts(leaf) {
      var s := Splicing(t, ValueOf(leaf), keys);
      forall j | 0 <= j < |Parts(leaf)| ensures n !in RefsIn(Parts(leaf)[j]) { PartRefs(leaf, j); }
      assert Waiting(s, n, leaf, 0) && Carries(s, t, n, leaf);
      hide Put, Leaves, InlineFrom, SpliceKeys, LeafAt, KeysOf;
      SpliceKeysInline(s, t, n, leaf, 0);
    } else {
      InlineOfSettled(Leaves(t), leaf.tokens);
    }
  }

  lemma VisitedKeys(leaf: Node, defaults: set<string>)
    requires Full(leaf) && PlainNames(defaults) && (leaf.Items? ==> NoneDefault(Parts(leaf), defaults))
    ensures var keys := KeysOf(ValueOf(leaf), defaults);
      keys == Parts(leaf) || (leaf.Text? && keys == [] && RefsIn(leaf.tokens) == {})
  {
    if leaf.Items? {
      AllWanted(Parts(leaf), defaults);
    } else {
      if HasRef(leaf.tokens) { PercentSigns(leaf.tokens); }
      OneKey(leaf.tokens, defaults);
    }
  }

  // ---------------------------------------------------------------- which references occur

  /** Every placeholder of the leaves is among `refs`. */
  ghost predicate RefsAmong(t: Node, refs: set<Path>) {
    forall p :: p in Leaves(t) ==> RefsIn(Leaves(t)[p]) <= refs
  }

  ghost predicate KeysAmong(keys: seq<Tokens>, refs: set<Path>) {
    forall i :: 0 <= i < |keys| ==> RefsIn(keys[i]) <= refs
  }

  ghost predicate ValueAmong(v: Value, refs: set<Path>) {
    match v
    case One(text) => RefsIn(text) <= refs
    case Many(texts) => KeysAmong(texts, refs)
    case Unhashable => false
  }

  lemma {:induction false} WantedAmong(keys: seq<Tokens>, defaults: set<string>, refs: set<Path>)
    requires KeysAmong(keys, refs)
    ensures KeysAmong(Wanted(keys, defaults), refs)
  {
    if keys != [] { WantedAmong(keys[1..], defaults, refs); }
  }

  lemma SplicedAmong(t: Node, key: Tokens, m: nat, refs: set<Path>)
    requires RefsAmong(t, refs) && RefsIn(key) <= refs && 0 < m <= |key| && key[m-1].Ref?
    ensures RefsIn(key[..m-1] + Found(t, key[m-1].path) + key[m..]) <= refs
  {
    var found := Found(t, key[m-1].path);
    FoundIsLeaf(t, key[m-1].path);
    assert key == key[..m-1] + ([key[m-1]] + key[m..]);
    hide RefsAmong, Found, Leaves;
    RefsInConcat(key[..m-1], [key[m-1]] + key[m..]);
    RefsInConcat([key[m-1]], key[m..]);
    RefsInConcat(key[..m-1] + found, key[m..]);
    RefsInConcat(key[..m-1], found);
  }

  // ---------------------------------------------------------------- visiting a foreign variable

  /** The name leads to no leaf of the tree before its end. */
  ghost predicate ClearOfLeaves(t: Node, n: Path) {
    forall k {:trigger n[..k]} :: 0 <= k < |n| ==> LeafAt(t, n[..k]) == None
  }

  /** A variable registered elsewhere that leads to nothing, or, if it is a text, to a text without
      placeholders. */
  ghost predicate Harmless(t: Node, n: Path, v: Value) {
    && ClearOfLeaves(t, n)
    && match At(t, n)
       case None => true
       case Some(Text(tokens)) => v.One? && !HasRef(tokens)
       case _ => false
  }

  lemma {:induction false} ReplacesNothing(t: Node, n: Path, was: Value, i: nat, now: Tokens)
    requires ClearOfLeaves(t, n) && (At(t, n).Some? ==> At(t, n).value.Text? && was != One(At(t, n).value.tokens))
    ensures ReplaceAt(t, n, was, i, now) == t
    decreases |n|
  {
    if n != [] && t.Section? && n[0] in t.entries {
      var child := t.entries[n[0]];
      forall k {:trigger n[1..][..k]} | 0 <= k < |n[1..]| ensures LeafAt(child, n[1..][..k]) == None {
        assert n[..k+1] == [n[0]] + n[1..][..k];
        LeafAtUnder(t, n[0], n[1..][..k]);
      }
      ReplacesNothing(child, n[1..], was, i, now);
      LeafAtUnder(t, n[0], []);
      assert |n| > 1 ==> n[..1] == [n[0]] + [];
      assert |n| > 1 ==> child.Section?;
      assert t.entries[n[0] := child] == t.entries;
    }
  }

  /** A splicing that has nothing to replace in the tree. */
  ghost predicate Idle(s: Splicing, n: Path, key: Tokens, refs: set<Path>) {
    && ClearOfLeaves(s.tree, n) && RefsAmong(s.tree, refs)
    && ValueAmong(s.value, refs) && KeysAmong(s.keys, refs) && RefsIn(key) <= refs
    && match At(s.tree, n)
       case None => true
       case Some(Text(tokens)) => s.value == One(key) && |s.keys| == 1 && !HasRef(tokens)
       case _ => false
  }

  lemma {:induction false} IdleSpliceKey(s: Splicing, n: Path, i: nat, key: Tokens, m: nat, refs: set<Path>)
    requires Idle(s, n, key, refs) && i < |s.keys| && m <= |key|
    ensures var r := SpliceKey(s, n, i, key, m);
      r.tree == s.tree && ValueAmong(r.value, refs) && KeysAmong(r.keys, refs)
      && (s.value.One? && |s.keys| == 1 ==> r.value.One?)
    decreases m
  {
    if m > 0 {
      var found := if key[m-1].Ref? then Found(s.tree, key[m-1].path) else [];
      if found == [] {
        IdleSpliceKey(s, n, i, key, m - 1, refs);
      } else {
        var now := key[..m-1] + found + key[m..];
        RefAt(key, m - 1);
        SplicedAmong(s.tree, key, m, refs);
        ReplacesNothing(s.tree, n, s.value, i, now);
        hide RefsAmong, ReplaceAt, At, Found;
        IdleSpliceKey(Replaced(s, n, i, now), n, i, now, m - 1, refs);
      }
    }
  }

  lemma {:induction false} IdleSpliceKeys(s: Splicing, n: Path, pos: nat, i: nat, refs: set<Path>)
    requires i <= pos <= |s.keys| && RefsAmong(s.tree, refs) && ValueAmong(s.value, refs) && KeysAmong(s.keys, refs)
    requires ClearOfLeaves(s.tree, n) && At(s.tree, n) == None
    ensures var r := SpliceKeys(s, n, pos, i); r.tree == s.tree && ValueAmong(r.value, refs)
    ensures s.value.One? && |s.keys| <= 1 ==> SpliceKeys(s, n, pos, i).value.One?
    decreases |s.keys| - pos
  {
    if pos < |s.keys| {
      hide RefsAmong, At, ClearOfLeaves, SpliceKey, ValueAmong;
      if s.keys[pos] == [] {
        IdleSpliceKeys(s, n, pos + 1, i, refs);
      } else {
        IdleSpliceKey(s, n, i, s.keys[pos], |s.keys[pos]|, refs);
        IdleSpliceKeys(SpliceKey(s, n, i, s.keys[pos], |s.keys[pos]|), n, pos + 1, i + 1, refs);
      }
    }
  }

  /** A foreign variable changes nothing in the tree, and brings no new placeholders. */
  lemma VisitForeign(t: Node, n: Path, v: Value, defaults: set<string>, refs: set<Path>)
    requires Harmless(t, n, v) && RefsAmong(t, refs) && ValueAmong(v, refs)
    ensures var (t', v') := Visit(t, n, v, defaults);
      t' == t && ValueAmong(v', refs) && (v.One? ==> v'.One?) && Harmless(t, n, v')
  {
    var s := Splicing(t, v, KeysOf(v, defaults));
    WantedAmong(if v.One? then [v.text] else v.texts, defaults, refs);
    if v.One? { OneKey(v.text, defaults); }
    hide RefsAmong, ClearOfLeaves, Wanted;
    if At(t, n) == None {
      IdleSpliceKeys(s, n, 0, 0, refs);
    } else if s.keys != [] && v.text != [] {
      assert s.keys == [v.text];
      IdleSpliceKey(s, n, 0, v.text, |v.text|, refs);
      SpliceOneKey(s, n);
    } else if s.keys != [] {
      SpliceOneKey(s, n);
    }
  }
}

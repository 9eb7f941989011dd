/** Small configurations with placeholders in lists. */
module ListCases {
  import opened Options
  import opened ConfigTree
  import opened Flatten
  import opened Splitting
  import opened Placeholders
  import opened Expansion
  import opened Substitution
  import opened Rewriting
  import opened FullSubstitution
  import opened OneElementLists
  import opened Digraph

  /** Two texts, and a value under "L". */
  function Small(a: Tokens, b: Tokens, x: Node): Node { Section(map["A" := Text(a), "B" := Text(b), "L" := x]) }

  function Config(a: Tokens, b: Tokens, items: seq<Node>): Node { Small(a, b, Items(items)) }

  lemma InConfig(a: Tokens, b: Tokens, items: seq<Node>)
    ensures var t := Config(a, b, items);
      && Found(t, ["A"]) == a && Found(t, ["B"]) == b
      && (forall was, i: nat, now :: i < |items| && items[i].Text? ==>
            ReplaceAt(t, ["L"], was, i, now)
              == Config(a, b, items[i := Text(ReplaceElement(items[i].tokens, was, i, now))]))
      && (forall i: nat, now :: ReplaceAt(t, ["A"], One(a), i, now) == Config(now, b, items))
      && (forall i: nat, now :: ReplaceAt(t, ["B"], One(b), i, now) == Config(a, now, items))
  {
    var m := Config(a, b, items).entries;
    forall k: string | k in m ensures At(Section(m), [k]) == Some(m[k]) { assert At(m[k], []) == Some(m[k]); }
    assert At(Section(m), ["A"]) == Some(Text(a)) && At(Section(m), ["B"]) == Some(Text(b));
    forall was, i: nat, now | i < |items| && items[i].Text?
      ensures ReplaceAt(Section(m), ["L"], was, i, now)
        == Config(a, b, items[i := Text(ReplaceElement(items[i].tokens, was, i, now))])
    {
      assert m["L" := Items(items[i := Text(ReplaceElement(items[i].tokens, was, i, now))])]
        == Config(a, b, items[i := Text(ReplaceElement(items[i].tokens, was, i, now))]).entries;
    }
    forall i: nat, now ensures ReplaceAt(Section(m), ["A"], One(a), i, now) == Config(now, b, items) {
      assert m["A" := Text(now)] == Config(now, b, items).entries;
    }
    forall i: nat, now ensures ReplaceAt(Section(m), ["B"], One(b), i, now) == Config(a, now, items) {
      assert m["B" := Text(now)] == Config(a, now, items).entries;
    }
  }

  /** The visit of a variable with one key that is not empty. */
  lemma VisitOneKey(t: Node, n: Path, v: Value, key: Tokens, defaults: set<string>)
    requires (v == One(key) || v == Many([key])) && key != [] && Written(key) !in defaults
    ensures var s := SpliceKey(Splicing(t, v, [key]), n, 0, key, |key|); Visit(t, n, v, defaults) == (s.tree, s.value)
  {
    OneKey(key, defaults);
    SpliceOneKey(Splicing(t, v, [key]), n);
  }

  /** A placeholder that finds something is spliced, everything else is passed over. */
  lemma SpliceStep(s: Splicing, n: Path, i: nat, key: Tokens, m: nat)
    requires i < |s.keys| && 0 < m <= |key|
    ensures var found := if key[m-1].Ref? then Found(s.tree, key[m-1].path) else [];
      var now := key[..m-1] + found + key[m..];
      SpliceKey(s, n, i, key, m) ==
        if found == [] then SpliceKey(s, n, i, key, m - 1) else SpliceKey(Replaced(s, n, i, now), n, i, now, m - 1)
  {}

  lemma PassOfOne(t: Node, n: Path, v: Value, defaults: set<string>)
    ensures var (t1, v1) := Visit(t, n, v, defaults);
      Pass(t, map[n := v], map[n := v], [n], defaults) == (t1, map[n := v1])
  {
    hide Visit;
    var (t1, v1) := Visit(t, n, v, defaults);
    var dv: Variables := map[n := v];
    assert dv[n := v1] == map[n := v1];
    assert Pass(t1, dv, map[n := v1], [n][1..], defaults) == (t1, map[n := v1]);
  }

  const L: Path := ["L"]

  // ---------------------------------------------------------------- two placeholders

  const Two: Tokens := [Ref(["A"]), Lit("/"), Ref(["B"])]
  const TwoOnce: Tokens := [Ref(["A"]), Lit("/"), Lit("b")]
  const TwoTwice: Tokens := [Lit("a"), Lit("/"), Lit("b")]

  lemma WrittenFirst(tok: Token, rest: Tokens)
    ensures Written([tok] + rest) == WrittenToken(tok) + Written(rest)
  {
    assert ([tok] + rest)[1..] == rest;
  }

  lemma WrittenTwo()
    ensures Written(TwoOnce) == "%A%/b" && Written(TwoTwice) == "a/b" && '%' in Written(Two) && Two != TwoTwice
  {
    PercentSigns(Two);
    var one, two: Tokens := [Lit("b")], [Lit("/"), Lit("b")];
    assert WrittenToken(Ref(["A"])) == "%A%" && Written([]) == "";
    hide Written;
    WrittenFirst(Lit("b"), []);
    WrittenFirst(Lit("/"), one);
    WrittenFirst(Lit("a"), two);
    WrittenFirst(Ref(["A"]), two);
    assert [Lit("b")] + [] == one && [Lit("/")] + one == two;
    assert [Lit("a")] + two == TwoTwice && [Ref(["A"])] + two == TwoOnce;
  }

  /** One character of a text that is gone through. */
  lemma ReplaceStep(c: char, rest: string, n: string)
    ensures ReplaceAll([c] + rest, "%", n) == (if c == '%' then n else [c]) + ReplaceAll(rest, "%", n)
    ensures ReplaceAll("", "%", n) == ""
  {
    assert ([c] + rest)[1..] == rest && ([c] + rest)[..1] == [c];
  }

  lemma ReplacedTwo()
    ensures ReplaceAll("%A%/b", "%", "a/b") == "a/bAa/b/b"
  {
    hide ReplaceAll;
    var n := "a/b";
    ReplaceStep('b', "", n);
    ReplaceStep('/', "b", n);
    ReplaceStep('%', "/b", n);
    ReplaceStep('A', "%/b", n);
    ReplaceStep('%', "A%/b", n);
    assert ['b'] + "" == "b" && ['/'] + "b" == "/b" && ['%'] + "/b" == "%/b";
    assert ['A'] + "%/b" == "A%/b" && ['%'] + "A%/b" == "%A%/b";
    assert ReplaceAll("%/b", "%", n) == "a/b/b";
    assert ReplaceAll("A%/b", "%", n) == "Aa/b/b";
  }

  lemma VisitTwo(defaults: set<string>)
    requires PlainNames(defaults)
    ensures var a, b: Tokens := [Lit("a")], [Lit("b")];
      Visit(Config(a, b, [Text(Two)]), L, Many([Two]), defaults)
        == (Config(a, b, [Text(Tokenised("a/bAa/b/b"))]), One(TwoTwice))
  {
    var a, b: Tokens := [Lit("a")], [Lit("b")];
    WrittenTwo();
    var spoilt := Tokenised("a/bAa/b/b");
    var s := Splicing(Config(a, b, [Text(Two)]), Many([Two]), [Two]);
    var s1 := Splicing(Config(a, b, [Text(TwoOnce)]), One(TwoOnce), [Two]);
    var s2 := Splicing(Config(a, b, [Text(spoilt)]), One(TwoTwice), [Two]);
    InConfig(a, b, [Text(Two)]);
    InConfig(a, b, [Text(TwoOnce)]);
    ReplacedTwo();
    hide Config, Tokenised, Written, ReplaceAll, Found, ReplaceAt, SpliceKey;
    assert [Text(Two)][0 := Text(TwoOnce)] == [Text(TwoOnce)] && [Text(TwoOnce)][0 := Text(spoilt)] == [Text(spoilt)];
    assert ReplaceElement(Two, Many([Two]), 0, TwoOnce) == TwoOnce;
    assert ReplaceElement(TwoOnce, One(TwoOnce), 0, TwoTwice) == spoilt;
    assert Replaced(s, L, 0, TwoOnce) == s1 && Replaced(s1, L, 0, TwoTwice) == s2;
    SpliceStep(s, L, 0, Two, 3);
    assert Two[..2] + b + Two[3..] == TwoOnce;
    SpliceStep(s1, L, 0, TwoOnce, 2);
    SpliceStep(s1, L, 0, TwoOnce, 1);
    assert TwoOnce[..0] + a + TwoOnce[1..] == TwoTwice;
    VisitOneKey(s.tree, L, Many([Two]), Two, defaults);
    NoMore(s2, L, 0, TwoTwice);
  }

  lemma NoMore(s: Splicing, n: Path, i: nat, key: Tokens)
    requires i < |s.keys|
    ensures SpliceKey(s, n, i, key, 0) == s
  {}

  // ---------------------------------------------------------------- rounds

  lemma {:induction false} GroundSplice(s: Splicing, n: Path, i: nat, key: Tokens, m: nat)
    requires i < |s.keys| && m <= |key| && RefsIn(key) == {}
    ensures SpliceKey(s, n, i, key, m) == s
    decreases m
  {
    if m > 0 {
      SpliceStep(s, n, i, key, m);
      if key[m-1].Ref? { RefAt(key, m - 1); }
      GroundSplice(s, n, i, key, m - 1);
    }
  }

  /** A text without placeholders stays. */
  lemma VisitGround(t: Node, n: Path, text: Tokens, defaults: set<string>)
    requires RefsIn(text) == {}
    ensures Visit(t, n, One(text), defaults) == (t, One(text))
  {
    var s := Splicing(t, One(text), KeysOf(One(text), defaults));
    OneKey(text, defaults);
    if s.keys != [] {
      GroundSplice(s, n, 0, text, |text|);
      SpliceOneKey(s, n);
    }
  }

  /** The passes, while variables change. */
  lemma RoundsStep(t: Node, dv: Variables, order: seq<Path>, left: nat, defaults: set<string>, t1: Node, dv1: Variables)
    requires Lists(order, dv) && |dv| > 0 && left > 0 && Pass(t, dv, dv, order, defaults) == (t1, dv1)
    ensures Lists(order, dv1)
    ensures Rounds(t, dv, order, left, defaults) ==
      if dv1 == dv then (t1, dv) else Rounds(t1, dv1, order, left - 1, defaults)
  {
    PassLists(t, dv, order, defaults);
  }

  /** Two placeholders in the only element: the second splice puts the text in for every `%`. */
  lemma TwoSplicesSpoil(defaults: set<string>)
    requires PlainNames(defaults)
    ensures var a, b: Tokens := [Lit("a")], [Lit("b")];
      var dv: Variables := map[L := Many([Two])];
      Lists([L], dv) && Rounds(Config(a, b, [Text(Two)]), dv, [L], MAX_DEEP + 1, defaults)
        == (Config(a, b, [Text(Tokenised("a/bAa/b/b"))]), map[L := One(TwoTwice)])
  {
    var a, b: Tokens := [Lit("a")], [Lit("b")];
    var t, t1 := Config(a, b, [Text(Two)]), Config(a, b, [Text(Tokenised("a/bAa/b/b"))]);
    var dv, dv1: Variables := map[L := Many([Two])], map[L := One(TwoTwice)];
    VisitTwo(defaults);
    assert RefsIn(TwoTwice) == {};
    hide Visit, Pass, Config, Tokenised, RefsIn;
    VisitGround(t1, L, TwoTwice, defaults);
    PassOfOne(t, L, Many([Two]), defaults);
    PassOfOne(t1, L, One(TwoTwice), defaults);
    RoundsStep(t, dv, [L], MAX_DEEP + 1, defaults, t1, dv1);
    RoundsStep(t1, dv1, [L], MAX_DEEP, defaults, t1, dv1);
  }

  lemma PassOfTwo(t: Node, n: Path, v: Value, m: Path, w: Value, defaults: set<string>)
    requires n != m
    ensures var (t1, v1) := Visit(t, n, v, defaults);
      var (t2, w1) := Visit(t1, m, w, defaults);
      var dv: Variables := map[n := v, m := w];
      Pass(t, dv, dv, [n, m], defaults) == (t2, map[n := v1, m := w1])
  {
    hide Visit;
    var (t1, v1) := Visit(t, n, v, defaults);
    var (t2, w1) := Visit(t1, m, w, defaults);
    var dv: Variables := map[n := v, m := w];
    assert [n, m][1..] == [m] && [m][1..] == [];
    assert dv[n := v1][m := w1] == map[n := v1, m := w1];
    assert Pass(t2, dv, dv[n := v1][m := w1], [], defaults) == (t2, dv[n := v1][m := w1]);
    assert Pass(t1, dv, dv[n := v1], [m], defaults) == (t2, dv[n := v1][m := w1]);
  }

  /** One round over two variables. */
  lemma RoundOfTwo(t: Node, n: Path, v: Value, m: Path, w: Value, left: nat, defaults: set<string>, u: Node, v1: Value,
                   t1: Node, w1: Value)
    requires n != m && left > 0 && Visit(t, n, v, defaults) == (u, v1) && Visit(u, m, w, defaults) == (t1, w1)
    ensures var dv: Variables, dv1: Variables := map[n := v, m := w], map[n := v1, m := w1];
      && Lists([n, m], dv) && Lists([n, m], dv1)
      && Rounds(t, dv, [n, m], left, defaults).0
           == if v1 == v && w1 == w then t1 else Rounds(t1, dv1, [n, m], left - 1, defaults).0
  {
    var dv: Variables, dv1: Variables := map[n := v, m := w], map[n := v1, m := w1];
    PassOfTwo(t, n, v, m, w, defaults);
    assert [n, m][1..] == [m];
    assert dv1[n] == v1 && dv1[m] == w1 && dv[n] == v && dv[m] == w;
    hide Visit, Pass, Rounds;
    RoundsStep(t, dv, [n, m], left, defaults, t1, dv1);
  }

  // ---------------------------------------------------------------- a placeholder in the text found

  const ToA: Tokens := [Ref(["A"])]
  const ToB: Tokens := [Ref(["B"])]
  const TheB: Tokens := [Lit("b")]

  lemma WrittenRefs(r: Path)
    ensures Written([Ref(r)]) == WrittenToken(Ref(r)) && '%' in Written([Ref(r)])
  {
    PercentSigns([Ref(r)]);
    WrittenFirst(Ref(r), []);
  }

  /** The visit of a text or a list that is one placeholder and nothing else. */
  lemma SpliceWhole(s: Splicing, n: Path, i: nat, r: Path)
    requires i < |s.keys| && Found(s.tree, r) != []
    ensures SpliceKey(s, n, i, [Ref(r)], 1) == Replaced(s, n, i, Found(s.tree, r))
  {
    var key: Tokens := [Ref(r)];
    SpliceStep(s, n, i, key, 1);
    assert key[..0] + Found(s.tree, r) + key[1..] == Found(s.tree, r);
  }

  lemma VisitText(b: Tokens, items: seq<Node>, defaults: set<string>)
    requires PlainNames(defaults) && b != []
    ensures Visit(Config(ToB, b, items), ["A"], One(ToB), defaults) == (Config(b, b, items), One(b))
  {
    WrittenRefs(["B"]);
    InConfig(ToB, b, items);
    hide Config, Found, ReplaceAt;
    VisitOneKey(Config(ToB, b, items), ["A"], One(ToB), ToB, defaults);
    SpliceWhole(Splicing(Config(ToB, b, items), One(ToB), [ToB]), ["A"], 0, ["B"]);
  }

  /** The first splice of a list with one placeholder. */
  lemma VisitFresh(a: Tokens, defaults: set<string>)
    requires PlainNames(defaults) && a != []
    ensures Visit(Config(a, TheB, [Text(ToA)]), L, Many([ToA]), defaults) == (Config(a, TheB, [Text(a)]), One(a))
  {
    WrittenRefs(["A"]);
    InConfig(a, TheB, [Text(ToA)]);
    hide Config, Found, ReplaceAt;
    assert [Text(ToA)][0 := Text(a)] == [Text(a)];
    VisitOneKey(Config(a, TheB, [Text(ToA)]), L, Many([ToA]), ToA, defaults);
    SpliceWhole(Splicing(Config(a, TheB, [Text(ToA)]), Many([ToA]), [ToA]), L, 0, ["A"]);
  }

  lemma ReplacedB()
    ensures Written(ToB) == "%B%" && Written(TheB) == "b" && ReplaceAll("%B%", "%", "b") == "bBb"
  {
    WrittenRefs(["B"]);
    WrittenFirst(Lit("b"), []);
    assert [Lit("b")] + [] == TheB && Written([]) == "";
    hide ReplaceAll, Written;
    ReplaceStep('%', "", "b");
    ReplaceStep('B', "%", "b");
    ReplaceStep('%', "B%", "b");
    assert ['%'] + "" == "%" && ['B'] + "%" == "B%" && ['%'] + "B%" == "%B%";
    assert ReplaceAll("B%", "%", "b") == "Bb";
  }

  /** The second splice of it. */
  lemma VisitAgain(a: Tokens, defaults: set<string>)
    requires PlainNames(defaults)
    ensures Visit(Config(a, TheB, [Text(ToB)]), L, One(ToB), defaults)
      == (Config(a, TheB, [Text(Tokenised("bBb"))]), One(TheB))
  {
    ReplacedB();
    InConfig(a, TheB, [Text(ToB)]);
    hide Config, Found, ReplaceAt, Tokenised, ReplaceAll, Written;
    assert ReplaceElement(ToB, One(ToB), 0, TheB) == Tokenised("bBb");
    assert [Text(ToB)][0 := Text(Tokenised("bBb"))] == [Text(Tokenised("bBb"))];
    VisitOneKey(Config(a, TheB, [Text(ToB)]), L, One(ToB), ToB, defaults);
    SpliceWhole(Splicing(Config(a, TheB, [Text(ToB)]), One(ToB), [ToB]), L, 0, ["B"]);
  }

  /** The same variables, visited in two orders, give different results. */
  lemma OrderMatters(defaults: set<string>)
    requires PlainNames(defaults)
    ensures var dv: Variables := map[["A"] := One(ToB), L := Many([ToA])];
      var t := Config(ToB, TheB, [Text(ToA)]);
      && Lists([["A"], L], dv) && Lists([L, ["A"]], dv)
      && Rounds(t, dv, [["A"], L], MAX_DEEP + 2, defaults).0 == Config(TheB, TheB, [Text(TheB)])
      && Rounds(t, dv, [L, ["A"]], MAX_DEEP + 2, defaults).0 == Config(TheB, TheB, [Text(Tokenised("bBb"))])
  {
    hide *;
    SameVariables();
    FirstOrder(defaults);
    SecondOrder(defaults);
  }

  lemma SameVariables()
    ensures map[L := Many([ToA]), ["A"] := One(ToB)] == map[["A"] := One(ToB), L := Many([ToA])]
  {}

  lemma FirstOrder(defaults: set<string>)
    requires PlainNames(defaults)
    ensures var dv: Variables := map[["A"] := One(ToB), L := Many([ToA])];
      Lists([["A"], L], dv) && Rounds(Config(ToB, TheB, [Text(ToA)]), dv, [["A"], L], MAX_DEEP + 2, defaults).0
        == Config(TheB, TheB, [Text(TheB)])
  {
    var t, t1 := Config(ToB, TheB, [Text(ToA)]), Config(TheB, TheB, [Text(TheB)]);
    assert RefsIn(TheB) == {};
    hide *;
    var u := Config(TheB, TheB, [Text(ToA)]);
    VisitText(TheB, [Text(ToA)], defaults);
    VisitFresh(TheB, defaults);
    RoundOfTwo(t, ["A"], One(ToB), L, Many([ToA]), MAX_DEEP + 2, defaults, u, One(TheB), t1, One(TheB));
    VisitGround(t1, ["A"], TheB, defaults);
    VisitGround(t1, L, TheB, defaults);
    RoundOfTwo(t1, ["A"], One(TheB), L, One(TheB), MAX_DEEP + 1, defaults, t1, One(TheB), t1, One(TheB));
  }

  lemma SecondOrder(defaults: set<string>)
    requires PlainNames(defaults)
    ensures var dv: Variables := map[L := Many([ToA]), ["A"] := One(ToB)];
      Lists([L, ["A"]], dv) && Rounds(Config(ToB, TheB, [Text(ToA)]), dv, [L, ["A"]], MAX_DEEP + 2, defaults).0
        == Config(TheB, TheB, [Text(Tokenised("bBb"))])
  {
    var t, t1 := Config(ToB, TheB, [Text(ToA)]), Config(TheB, TheB, [Text(ToB)]);
    var t2 := Config(TheB, TheB, [Text(Tokenised("bBb"))]);
    assert RefsIn(TheB) == {};
    hide *;
    var u := Config(ToB, TheB, [Text(ToB)]);
    VisitFresh(ToB, defaults);
    VisitText(TheB, [Text(ToB)], defaults);
    RoundOfTwo(t, L, Many([ToA]), ["A"], One(ToB), MAX_DEEP + 2, defaults, u, One(ToB), t1, One(TheB));
    VisitAgain(TheB, defaults);
    VisitGround(t2, ["A"], TheB, defaults);
    RoundOfTwo(t1, L, One(ToB), ["A"], One(TheB), MAX_DEEP + 1, defaults, t2, One(TheB), t2, One(TheB));
    VisitGround(t2, L, TheB, defaults);
    RoundOfTwo(t2, L, One(TheB), ["A"], One(TheB), MAX_DEEP, defaults, t2, One(TheB), t2, One(TheB));
  }

  // ---------------------------------------------------------------- an element named like a default parameter

  const D: Tokens := [Lit("d")]

  lemma WrittenD()
    ensures Written(D) == "d" && RefsIn(D) == {}
  {
    WrittenFirst(Lit("d"), []);
    assert [Lit("d")] + [] == D && Written([]) == "";
  }

  /** The first visit of a list of two splices both elements. */
  lemma VisitPair(defaults: set<string>)
    requires PlainNames(defaults)
    ensures Visit(Config(D, ToA, [Text(ToA), Text(ToB)]), L, Many([ToA, ToB]), defaults)
      == (Config(D, ToA, [Text(D), Text(ToA)]), Many([D, ToA]))
  {
    var t, t1 := Config(D, ToA, [Text(ToA), Text(ToB)]), Config(D, ToA, [Text(D), Text(ToB)]);
    WrittenRefs(["A"]);
    WrittenRefs(["B"]);
    AllWanted([ToA, ToB], defaults);
    InConfig(D, ToA, [Text(ToA), Text(ToB)]);
    InConfig(D, ToA, [Text(D), Text(ToB)]);
    var s := Splicing(t, Many([ToA, ToB]), [ToA, ToB]);
    var s1 := Splicing(t1, Many([D, ToB]), [D, ToB]);
    var s2 := Splicing(Config(D, ToA, [Text(D), Text(ToA)]), Many([D, ToA]), [D, ToA]);
    hide Config, Found, ReplaceAt, Written, Wanted;
    assert [Text(ToA), Text(ToB)][0 := Text(D)] == [Text(D), Text(ToB)] && [ToA, ToB][0 := D] == [D, ToB];
    assert [Text(D), Text(ToB)][1 := Text(ToA)] == [Text(D), Text(ToA)] && [D, ToB][1 := ToA] == [D, ToA];
    SpliceWhole(s, L, 0, ["A"]);
    SpliceWhole(s1, L, 1, ["B"]);
    assert SpliceKeys(s, L, 0, 0) == SpliceKeys(s1, L, 1, 1) == SpliceKeys(s2, L, 2, 2) == s2;
  }

  /** From then on the first element is a default parameter, and the second counts as the first. */
  lemma VisitShifted(defaults: set<string>)
    requires PlainNames(defaults) && "d" in defaults
    ensures Visit(Config(D, D, [Text(D), Text(ToA)]), L, Many([D, ToA]), defaults)
      == (Config(D, D, [Text(D), Text(ToA)]), One(D))
  {
    var t := Config(D, D, [Text(D), Text(ToA)]);
    WrittenD();
    WrittenRefs(["A"]);
    OneKey(ToA, defaults);
    InConfig(D, D, [Text(D), Text(ToA)]);
    var s, s1 := Splicing(t, Many([D, ToA]), [ToA]), Splicing(t, One(D), [ToA]);
    assert [D, ToA][1..] == [ToA];
    assert KeysOf(Many([D, ToA]), defaults) == [ToA];
    hide Config, Found, ReplaceAt, Written, Wanted;
    assert [Text(D), Text(ToA)][0 := Text(D)] == [Text(D), Text(ToA)];
    SpliceWhole(s, L, 0, ["A"]);
    assert SpliceKeys(s, L, 0, 0) == SpliceKeys(s1, L, 1, 1) == s1;
  }

  /** An element that becomes the name of a default parameter hides the one after it. */
  lemma DefaultHidesElement(defaults: set<string>)
    requires PlainNames(defaults) && "d" in defaults
    ensures var dv: Variables := map[L := Many([ToA, ToB]), ["B"] := One(ToA)];
      Lists([L, ["B"]], dv)
      && Rounds(Config(D, ToA, [Text(ToA), Text(ToB)]), dv, [L, ["B"]], MAX_DEEP + 2, defaults).0
        == Config(D, D, [Text(D), Text(ToA)])
  {
    var dv: Variables := map[L := Many([ToA, ToB]), ["B"] := One(ToA)];
    var dv1: Variables := map[L := Many([D, ToA]), ["B"] := One(D)];
    var dv2: Variables := map[L := One(D), ["B"] := One(D)];
    var t, t1 := Config(D, ToA, [Text(ToA), Text(ToB)]), Config(D, D, [Text(D), Text(ToA)]);
    WrittenD();
    hide Visit, Pass, Config, RefsIn, Written;
    VisitPair(defaults);
    VisitToD(defaults);
    PassOfTwo(t, L, Many([ToA, ToB]), ["B"], One(ToA), defaults);
    VisitShifted(defaults);
    VisitGround(t1, ["B"], D, defaults);
    PassOfTwo(t1, L, Many([D, ToA]), ["B"], One(D), defaults);
    VisitGround(t1, L, D, defaults);
    PassOfTwo(t1, L, One(D), ["B"], One(D), defaults);
    RoundsStep(t, dv, [L, ["B"]], MAX_DEEP + 2, defaults, t1, dv1);
    RoundsStep(t1, dv1, [L, ["B"]], MAX_DEEP + 1, defaults, t1, dv2);
    RoundsStep(t1, dv2, [L, ["B"]], MAX_DEEP, defaults, t1, dv2);
  }

  lemma VisitToD(defaults: set<string>)
    requires PlainNames(defaults)
    ensures Visit(Config(D, ToA, [Text(D), Text(ToA)]), ["B"], One(ToA), defaults)
      == (Config(D, D, [Text(D), Text(ToA)]), One(D))
  {
    var items := [Text(D), Text(ToA)];
    WrittenRefs(["A"]);
    InConfig(D, ToA, items);
    hide Config, Found, ReplaceAt;
    VisitOneKey(Config(D, ToA, items), ["B"], One(ToA), ToA, defaults);
    SpliceWhole(Splicing(Config(D, ToA, items), One(ToA), [ToA]), ["B"], 0, ["A"]);
  }

  // ---------------------------------------------------------------- a list of three

  const ToNothing: Tokens := [Ref(["NOTFOUND"])]
  const X: Tokens := [Lit("VARIABLEX")]
  const Y: Tokens := [Lit("VARIABLEY")]

  lemma WrittenNames()
    ensures Written(X) == "VARIABLEX" && Written(Y) == "VARIABLEY" && RefsIn(X) == RefsIn(Y) == {}
    ensures RefsIn(ToA) == {["A"]} && RefsIn(ToB) == {["B"]} && RefsIn(ToNothing) == {["NOTFOUND"]}
  {
    WrittenFirst(Lit("VARIABLEX"), []);
    WrittenFirst(Lit("VARIABLEY"), []);
    assert [Lit("VARIABLEX")] + [] == X && [Lit("VARIABLEY")] + [] == Y && Written([]) == "";
  }

  lemma {:induction false} ItemsTextOnly(items: seq<Node>, refs: set<Path>)
    requires forall i :: 0 <= i < |items| ==> items[i].Text? && RefsIn(items[i].tokens) <= refs
    ensures RefsIn(ItemsText(items)) <= refs
  {
    if items != [] {
      var n := |items| - 1;
      ItemsTextOnly(items[..n], refs);
      QuotedRefs(items[n].tokens);
      var glue := if n == 0 then [] else [Lit(", ")];
      RefsInConcat(ItemsText(items[..n]) + glue, ItemText(items[n]));
      RefsInConcat(ItemsText(items[..n]), glue);
    }
  }

  function Three(a: Tokens, b: Tokens): seq<Node> { [Text(ToNothing), Text(a), Text(b)] }

  // ---------------------------------------------------------------- the general results cover these cases

  const Refs: set<Path> := {["A"], ["B"], ["NOTFOUND"]}

  lemma SmallLeaf(a: Tokens, b: Tokens, x: Node, n: Path)
    requires !x.Section?
    ensures LeafAt(Small(a, b, x), n) ==
      if n == ["A"] then Some(Text(a)) else if n == ["B"] then Some(Text(b)) else if n == L then Some(x) else None
    ensures n == ["NOTFOUND"] || n == [] ==> At(Small(a, b, x), n) == if n == [] then Some(Small(a, b, x)) else None
  {
    var m := Small(a, b, x).entries;
    if n != [] {
      assert n == [n[0]] + n[1..];
      LeafAtUnder(Section(m), n[0], n[1..]);
      if n[0] in m && n[1..] != [] { assert At(m[n[0]], n[1..]) == None; }
    }
  }

  /** Two texts without placeholders, and a text or a list that refers to them. */
  ghost predicate SmallCase(a: Tokens, b: Tokens, x: Node) {
    && a != [] && b != [] && RefsIn(a) == RefsIn(b) == {} && Full(x) && Marked(x) && RefsIn(Shown(x)) <= Refs
    && ValueAmong(ValueOf(x), Refs)
  }

  lemma SmallOwn(a: Tokens, b: Tokens, x: Node)
    requires SmallCase(a, b, x)
    ensures OwnVariables(Small(a, b, x)) == map[L := ValueOf(x)]
  {
    var t := Small(a, b, x);
    forall n ensures n in OwnVariables(t) <==> n == L
      ensures n in OwnVariables(t) ==> OwnVariables(t)[n] == ValueOf(x)
    {
      OwnExactly(t, n);
      SmallLeaf(a, b, x, n);
    }
    hide OwnVariables;
  }

  lemma SmallLeaves(a: Tokens, b: Tokens, x: Node)
    requires SmallCase(a, b, x)
    ensures var s := Leaves(Small(a, b, x));
      s.Keys == {["A"], ["B"], L} && s[["A"]] == a && s[["B"]] == b && s[L] == Shown(x)
  {
    var t := Small(a, b, x);
    forall n ensures n in Leaves(t) <==> n in {["A"], ["B"], L}
      ensures n in Leaves(t) ==> Leaves(t)[n] == if n == ["A"] then a else if n == ["B"] then b else Shown(x)
    {
      LeavesExactly(t, n);
      SmallLeaf(a, b, x, n);
    }
    hide Leaves;
  }

  /** Only the list refers to anything, and not to itself. */
  lemma SmallEdge(a: Tokens, b: Tokens, x: Node, u: Path, v: Path)
    requires SmallCase(a, b, x) && u in RefGraph(Leaves(Small(a, b, x)))
    requires v in RefGraph(Leaves(Small(a, b, x)))[u]
    ensures u == L && v != L
  {
    SmallLeaves(a, b, x);
    hide Leaves, Shown, Small;
    assert L !in Refs;
  }

  lemma SmallAcyclic(a: Tokens, b: Tokens, x: Node)
    requires SmallCase(a, b, x)
    ensures Acyclic(RefGraph(Leaves(Small(a, b, x))))
  {
    var g := RefGraph(Leaves(Small(a, b, x)));
    hide Leaves, Small, SmallCase, RefGraph;
    forall p: seq<Path> | IsPath(g, p) && |p| >= 2 ensures p[0] != p[|p|-1] {
      var k := |p| - 2;
      assert p[0+1] in g[p[0]] && p[k+1] in g[p[k]];
      SmallEdge(a, b, x, p[0], p[1]);
      SmallEdge(a, b, x, p[k], p[k+1]);
    }
  }

  lemma SmallIsReady(a: Tokens, b: Tokens, x: Node, defaults: set<string>)
    requires SmallCase(a, b, x) && PlainNames(defaults) && Showable(Small(a, b, x))
    requires var s := Leaves(Small(a, b, x));
      x.Items? ==> forall i :: 0 <= i < |x.items| ==> Written(FullExpansion(s, x.items[i].tokens)) !in defaults
    ensures Ready(Small(a, b, x), map[L := ValueOf(x)], defaults, Refs)
  {
    var t := Small(a, b, x);
    hide Small, Leaves, OwnVariables, Acyclic, Unshifted, Showable, Registered, RefsAmong, NamesLeaf, ValueAmong,
      FullExpansion, RefGraph;
    SmallAcyclic(a, b, x);
    SmallUnshifted(a, b, x, defaults);
    SmallRegistered(a, b, x);
    forall r | r in Refs ensures NamesLeaf(t, r) { SmallNames(a, b, x, r); }
  }

  lemma SmallRegistered(a: Tokens, b: Tokens, x: Node)
    requires SmallCase(a, b, x)
    ensures var t := Small(a, b, x); t.Section? && Registered(t, map[L := ValueOf(x)]) && RefsAmong(t, Refs)
    ensures ValueAmong(ValueOf(x), Refs)
  {
    SmallOwn(a, b, x);
    SmallLeaves(a, b, x);
    SmallLeaf(a, b, x, L);
    hide Leaves, OwnVariables, LeafAt, Shown, ValueOf;
  }

  lemma SmallNames(a: Tokens, b: Tokens, x: Node, r: Path)
    requires Showable(Small(a, b, x)) && r in Refs && !x.Section?
    ensures NamesLeaf(Small(a, b, x), r)
  {
    SmallLeaf(a, b, x, r);
    SmallLeaf(a, b, x, []);
    hide Small, Showable;
    assert |r| == 1 && r[..0] == [];
  }

  lemma SmallUnshifted(a: Tokens, b: Tokens, x: Node, defaults: set<string>)
    requires SmallCase(a, b, x) && PlainNames(defaults)
    requires var s := Leaves(Small(a, b, x));
      x.Items? ==> forall i :: 0 <= i < |x.items| ==> Written(FullExpansion(s, x.items[i].tokens)) !in defaults
    ensures Unshifted(FrameOf(Small(a, b, x), {}, defaults, Refs))
  {
    var t := Small(a, b, x);
    SmallOwn(a, b, x);
    RewrittenLeafAt(t, Leaves(t), L);
    SmallLeaf(a, b, x, L);
    hide Leaves, OwnVariables, LeafAt, FullExpansion, Small, Shown, ValueAmong;
  }

  lemma SmallExpansions(a: Tokens, b: Tokens, x: Node)
    requires SmallCase(a, b, x)
    ensures var s := Leaves(Small(a, b, x));
      FullExpansion(s, ToA) == a && FullExpansion(s, ToB) == b && FullExpansion(s, ToNothing) == ToNothing
  {
    hide Leaves, FullExpansion, RefGraph, Small, RefsIn, Shown, ValueAmong, Full, Marked;
    var s := Leaves(Small(a, b, x));
    SmallLeaves(a, b, x);
    SmallAcyclic(a, b, x);
    FullExpansionUnfolds(s, ["A"]);
    FullExpansionUnfolds(s, ["B"]);
    FullExpansionUnfolds(s, ["NOTFOUND"]);
    GroundExpands(s, a);
    GroundExpands(s, b);
  }

  lemma ThreeIsShowable()
    ensures Showable(Small(X, Y, Items(Three(ToA, ToB))))
  {
    assert PlainWriting("VARIABLEX") && PlainWriting("VARIABLEY");
    assert Showable(Text(X)) && Showable(Text(Y)) && Showable(Text(ToA)) && Showable(Text(ToB));
    assert Showable(Text(ToNothing));
    hide PlainWriting;
    var items := Three(ToA, ToB);
    forall i | 0 <= i < |items| ensures !items[i].Section? && Showable(items[i]) {}
    assert Showable(Items(items));
  }

  lemma ThreeIsSmall(defaults: set<string>)
    requires PlainNames(defaults)
    ensures SmallCase(X, Y, Items(Three(ToA, ToB)))
    ensures ValueOf(Items(Three(ToA, ToB))) == Many([ToNothing, ToA, ToB])
  {
    var x := Items(Three(ToA, ToB));
    WrittenNames();
    assert ValueOf(x).texts == [ToNothing, ToA, ToB];
    assert Marked(x.items[1]);
    hide RefsIn, Written, ItemsText, Marked;
    ItemsTextOnly(x.items, Refs);
    ListRefs(x.items);
  }

  /** The main result covers a list of several elements: in every order each element is expanded, and
      what leads to nothing stays. */
  lemma ListIsExpanded(order: seq<Path>, defaults: set<string>)
    requires PlainNames(defaults) && "VARIABLEX" !in defaults && "VARIABLEY" !in defaults
    requires Lists(order, map[L := Many([ToNothing, ToA, ToB])])
    ensures var r := Substitute(Config(X, Y, Three(ToA, ToB)), map[L := Many([ToNothing, ToA, ToB])], order, defaults);
      r.Some? && r.value.0 == Config(X, Y, Three(X, Y))
  {
    var x := Items(Three(ToA, ToB));
    hide Leaves, FullExpansion, Small, SmallCase, Showable, Ready, RefsIn, Substitute;
    ThreeIsSmall(defaults);
    ThreeIsShowable();
    SmallExpansions(X, Y, x);
    WrittenNames();
    WrittenRefs(["NOTFOUND"]);
    SmallIsReady(X, Y, x, defaults);
    SubstitutionIsFullExpansion(Small(X, Y, x), map[L := Many([ToNothing, ToA, ToB])], order, defaults, Refs);
    ThreeRewritten(Leaves(Small(X, Y, x)));
  }

  lemma ThreeRewritten(s: Store)
    requires FullExpansion(s, ToA) == X && FullExpansion(s, ToB) == Y && FullExpansion(s, ToNothing) == ToNothing
    ensures Rewritten(Config(X, Y, Three(ToA, ToB)), s) == Config(X, Y, Three(X, Y))
  {
    WrittenNames();
    GroundExpands(s, X);
    GroundExpands(s, Y);
    hide FullExpansion, RefsIn;
    assert Rewritten(Items(Three(ToA, ToB)), s).items == Three(X, Y);
    assert Rewritten(Config(X, Y, Three(ToA, ToB)), s).entries == Config(X, Y, Three(X, Y)).entries;
  }

  lemma TwoIsSmall()
    ensures SmallCase([Lit("a")], [Lit("b")], Text(Two)) && Showable(Small([Lit("a")], [Lit("b")], Text(Two)))
    ensures RefsIn(Two) == {["A"], ["B"]} && Written(Two) != ""
  {
    RefsOfTwo();
    TwoIsShowable();
    PercentSigns(Two);
    assert RefsIn([Lit("a")]) == RefsIn([]) == {} && RefsIn([Lit("b")]) == RefsIn([]) == {};
    hide RefsIn, Written, Showable;
    assert {["A"], ["B"]} <= Refs;
  }

  lemma RefsOfTwo()
    ensures RefsIn(Two) == {["A"], ["B"]}
  {
    assert Two[1..] == [Lit("/"), Ref(["B"])] && Two[1..][1..] == [Ref(["B"])];
    assert RefsIn([Ref(["B"])]) == {["B"]};
    assert RefsIn(Two[1..]) == {["B"]};
  }

  lemma TwoIsShowable()
    ensures Showable(Small([Lit("a")], [Lit("b")], Text(Two)))
  {
    assert PlainWriting("a") && PlainWriting("b") && PlainWriting("/");
    hide PlainWriting;
    assert Showable(Text([Lit("a")])) && Showable(Text([Lit("b")])) && Showable(Text(Two));
  }

  lemma TwoFlattened()
    ensures var a, b: Tokens := [Lit("a")], [Lit("b")];
      var t := Config(a, b, [Text(Two)]);
      Flattened(t) == Small(a, b, Text(Two)) && Singles(t) == {L} && ElementAt(t, L) == Two
  {
    var a, b: Tokens := [Lit("a")], [Lit("b")];
    var t := Config(a, b, [Text(Two)]);
    TwoIsSmall();
    hide RefsIn;
    assert Single(t.entries["L"]);
    assert Flattened(t).entries == Small(a, b, Text(Two)).entries;
    forall p ensures p in Singles(t) <==> p == L {
      SinglesExactly(t, p);
        SmallLeaf(a, b, Items([Text(Two)]), p);
    }
    SmallLeaf(a, b, Items([Text(Two)]), L);
  }

  lemma TwoIsVisible()
    ensures Visible(Leaves(Small([Lit("a")], [Lit("b")], Text(Two))))
  {
    hide Leaves, Small, SmallCase, RefsIn, Showable, Written;
    TwoIsSmall();
    SmallLeaves([Lit("a")], [Lit("b")], Text(Two));
    WrittenFirst(Lit("a"), []);
    WrittenFirst(Lit("b"), []);
    assert [Lit("a")] + [] == [Lit("a")] && [Lit("b")] + [] == [Lit("b")];
  }

  /** The equivalence for lists of one covers the list with two placeholders, which it says to fail. */
  lemma TwoIsCovered(defaults: set<string>)
    requires PlainNames(defaults)
    ensures var t := Config([Lit("a")], [Lit("b")], [Text(Two)]);
      ReadyButLists(t, map[L := Many([Two])], defaults, Refs) && L in Singles(t)
      && !OneStep(Leaves(Flattened(t)), ElementAt(t, L))
  {
    var a, b: Tokens := [Lit("a")], [Lit("b")];
    var t := Config(a, b, [Text(Two)]);
    var dv: Variables := map[L := Many([Two])];
    hide Config, Small, SmallCase, Leaves, Ready, Visible, OwnVariables, Flattened, Singles, ElementAt, FullExpansion,
      RefsIn, Written, Showable, LiveRefs;
    TwoFlattened();
    TwoIsSmall();
    TwoIsVisible();
    SmallIsReady(a, b, Text(Two), defaults);
    SmallOwn(a, b, Text(Two));
    TwoAreLive();
    FlatTwo();
    IsSection(a, b, [Text(Two)]);
  }

  lemma IsSection(a: Tokens, b: Tokens, items: seq<Node>)
    ensures Config(a, b, items).Section?
  {}

  lemma FlatTwo()
    ensures Flat(map[L := Many([Two])], {L}) == map[L := ValueOf(Text(Two))]
    ensures L !in Refs
  {}

  lemma TwoAreLive()
    ensures LiveCount(Leaves(Small([Lit("a")], [Lit("b")], Text(Two))), Two) == 2
  {
    TwoIsSmall();
    SmallLeaves([Lit("a")], [Lit("b")], Text(Two));
    var s := Leaves(Small([Lit("a")], [Lit("b")], Text(Two)));
    hide Leaves;
    assert Two[1..] == [Lit("/"), Ref(["B"])] && Two[1..][1..] == [Ref(["B"])];
    assert LiveCount(s, [Ref(["B"])]) == 1;
    assert LiveCount(s, Two[1..]) == 1;
  }

  // ---------------------------------------------------------------- circles

  function Xs(n: nat): Tokens { seq(n, _ => Lit("x")) }

  /** `n` times an x, and a placeholder for the text itself. */
  function Circle(n: nat): Node { Section(map["A" := Text(Xs(n) + ToA)]) }

  lemma VisitCircle(n: nat, defaults: set<string>)
    requires PlainNames(defaults)
    ensures Visit(Circle(n), ["A"], One(Xs(n) + ToA), defaults) == (Circle(n + n), One(Xs(n + n) + ToA))
  {
    var t, key, name: Path := Circle(n), Xs(n) + ToA, ["A"];
    var now := Xs(n + n) + ToA;
    assert At(t, name) == At(t.entries["A"], []) == Some(Text(key));
    assert key[n] == Ref(name) && key[..n] == Xs(n) && key[n+1..] == [];
    RefAt(key, n);
    PercentSigns(key);
    VisitOneKey(t, name, One(key), key, defaults);
    var s, s1 := Splicing(t, One(key), [key]), Splicing(Circle(n + n), One(now), [key]);
    SpliceStep(s, name, 0, key, n + 1);
    assert key[..n] + key + key[n+1..] == now;
    assert ReplaceAt(t, name, One(key), 0, now) == Circle(n + n) by {
      assert t.entries["A" := Text(now)] == Circle(n + n).entries;
    }
    SkipXs(s1, name, now, n);
  }

  lemma {:induction false} SkipXs(s: Splicing, n: Path, key: Tokens, m: nat)
    requires |s.keys| == 1 && m <= |key| && forall i :: 0 <= i < m ==> key[i].Lit?
    ensures SpliceKey(s, n, 0, key, m) == s
    decreases m
  {
    if m > 0 { SkipXs(s, n, key, m - 1); }
  }

  function Doubled(n: nat, times: nat): nat
    decreases times
  {
    if times == 0 then n else Doubled(n + n, times - 1)
  }

  lemma {:induction false} RoundsOfCircle(n: nat, left: nat, defaults: set<string>)
    requires PlainNames(defaults) && n > 0
    ensures var dv: Variables := map[["A"] := One(Xs(n) + ToA)];
      Lists([["A"]], dv) && Rounds(Circle(n), dv, [["A"]], left, defaults).0 == Circle(Doubled(n, left))
    decreases left
  {
    hide Visit, Pass, Circle, Xs;
    var dv: Variables := map[["A"] := One(Xs(n) + ToA)];
    if left > 0 {
      var dv1: Variables := map[["A"] := One(Xs(n + n) + ToA)];
      VisitCircle(n, defaults);
      PassOfOne(Circle(n), ["A"], One(Xs(n) + ToA), defaults);
      CircleGrows(n);
      assert dv[["A"]] != dv1[["A"]];
      RoundsStep(Circle(n), dv, [["A"]], left, defaults, Circle(n + n), dv1);
      RoundsOfCircle(n + n, left - 1, defaults);
    }
  }

  lemma CircleGrows(n: nat)
    requires n > 0
    ensures Xs(n) + ToA != Xs(n + n) + ToA
  {
    assert |Xs(n) + ToA| != |Xs(n + n) + ToA|;
  }

  /** A text that refers to itself is doubled in every pass, until the cap of 25 passes and one for each
      variable stops it. */
  lemma CapStopsCircles(defaults: set<string>)
    requires PlainNames(defaults)
    ensures var dv: Variables := map[["A"] := One(Xs(1) + ToA)];
      Lists([["A"]], dv)
      && var r := Substitute(Circle(1), dv, [["A"]], defaults); r.Some? && r.value.0 == Circle(0x400_0000)
  {
    var dv: Variables := map[["A"] := One(Xs(1) + ToA)];
    assert |dv| == 1;
    RoundsOfCircle(1, 26, defaults);
    TwentySixTimes();
    hide Rounds, Circle, Xs;
  }

  lemma FourTimes(n: nat, times: nat)
    requires times >= 4
    ensures Doubled(n, times) == Doubled(16 * n, times - 4)
  {
    assert Doubled(n, times) == Doubled(2 * n, times - 1) == Doubled(4 * n, times - 2);
    assert Doubled(4 * n, times - 2) == Doubled(8 * n, times - 3);
  }

  lemma TwentySixTimes()
    ensures Doubled(1, 26) == 0x400_0000
  {
    assert Doubled(0x100_0000, 2) == Doubled(0x200_0000, 1) == Doubled(0x400_0000, 0);
    hide *;
    FourTimes(0x1, 26);
    FourTimes(0x10, 22);
    FourTimes(0x100, 18);
    FourTimes(0x1000, 14);
    FourTimes(0x1_0000, 10);
    FourTimes(0x10_0000, 6);
    assert Doubled(0x400_0000, 0) == 0x400_0000 by { DoubledNone(0x400_0000); }
  }

  lemma DoubledNone(n: nat)
    ensures Doubled(n, 0) == n
  {}
}

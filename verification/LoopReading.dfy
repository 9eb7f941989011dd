/** Reading a configuration for its loops and variables (`deep_read_loops`). */
module LoopReading {
  import opened Options
  import opened ConfigTree
  import opened Flatten
  import opened Splitting
  import opened Placeholders
  import opened Substitution
  import opened Rewriting
  import opened FullSubstitution
  import opened ForValues
  import opened ForLoops

  /** Where the loops are, the values with placeholders, and the data with the values of the loops
      written as texts. */
  datatype Reading = Reading(loops: set<Path>, variables: Variables, data: map<string, Node>)

  /** The sections that hold a FOR, wherever they are. */
  function ForPaths(t: Node): set<Path> {
    if !t.Section? then {}
    else
      (if IsLoop(t) then {[]} else {})
      + set k, p | k in t.entries && k != "FOR" && p in ForPaths(t.entries[k]) :: [k] + p
  }

  function Prefixed(prefix: Path, paths: set<Path>): set<Path> {
    set p | p in paths :: prefix + p
  }

  /** Where the values with a placeholder are, once the values of the loops have been read. Of these
      only texts count. */
  function VariablePaths(t: Node): set<Path> {
    if t.Section? then set k, p | k in t.entries
        && p in (if k == "FOR" then ForVariablePaths(t.entries[k]) else VariablePaths(t.entries[k])) :: [k] + p
    else if Marked(t) then {[]}
    else {}
  }

  function ForVariablePaths(f: Node): set<Path> {
    if !f.Section? then {} else set k | k in f.entries && f.entries[k].Text? && HasRef(f.entries[k].tokens) :: [k]
  }

  /** The values at the given paths below `t`, under names that start with `prefix`. */
  function Named(prefix: Path, t: Node, paths: set<Path>): Variables {
    map n | n in Prefixed(prefix, paths) :: ValueOf(LeafOf(t, n[|prefix|..]))
  }

  /** The variables of `t`, which has been read. */
  function VariablesOf(prefix: Path, t: Node): Variables { Named(prefix, t, VariablePaths(t)) }

  /** Every FOR holds values that can be read. */
  predicate Readable(t: Node, str: Str) {
    t.Section? ==> forall k :: k in t.entries ==>
      if k == "FOR" then ReadableFor(t.entries[k], str) else Readable(t.entries[k], str)
  }

  predicate ReadableFor(f: Node, str: Str) {
    f.Section? && forall k :: k in f.entries ==> ReadValue(f.entries[k], str).Some?
  }

  function ReadFor(f: Node, str: Str): Node
    requires ReadableFor(f, str)
  {
    Section(map k | k in f.entries :: ReadValue(f.entries[k], str).value)
  }

  function ReadTree(t: Node, str: Str): Node
    requires Readable(t, str)
  {
    if !t.Section? then t
    else Section(map k | k in t.entries ::
      if k == "FOR" then ReadFor(t.entries[k], str) else ReadTree(t.entries[k], str))
  }

  predicate ReadableAt(data: map<string, Node>, k: string, str: Str)
    requires k in data
  {
    if k == "FOR" then ReadableFor(data[k], str) else Readable(data[k], str)
  }

  function ReadAt(data: map<string, Node>, k: string, str: Str): Node
    requires k in data && ReadableAt(data, k, str)
  {
    if k == "FOR" then ReadFor(data[k], str) else ReadTree(data[k], str)
  }

  /** What is done with a FOR: its values are written as texts, and those with placeholders are
      registered. */
  method ReadForValues(f: Node, longKey: Path, str: Str) returns (r: Option<(Variables, Node)>)
    ensures r.Some? <==> ReadableFor(f, str)
    ensures r.Some? ==>
      r.value.1 == ReadFor(f, str) && r.value.0 == Named(longKey, r.value.1, ForVariablePaths(r.value.1))
  {
    hide Marked, HasRef, Named, ReadValue;
    if !f.Section? { return None; }
    var data, variables: Variables, todo := f.entries, map[], f.entries.Keys;
    NamedNothing(longKey, f);
    assert ForVisited(data, todo) == {};
    while todo != {}
      invariant todo <= f.entries.Keys == data.Keys
      invariant forall k :: k in f.entries && k !in todo ==>
        ReadValue(f.entries[k], str).Some? && data[k] == ReadValue(f.entries[k], str).value
      invariant forall k :: k in todo ==> data[k] == f.entries[k]
      invariant variables == Named(longKey, Section(data), ForVisited(data, todo))
    {
      var key :| key in todo;
      var value := ReadValue(f.entries[key], str);
      if value.None? { return None; }
      ForOneVariable(data, todo, key, value.value, longKey);
      if value.value.Text? && HasRef(value.value.tokens) {
        variables := variables[longKey + [key] := One(value.value.tokens)];
      }
      data := data[key := value.value];
      todo := todo - {key};
    }
    assert data == ReadFor(f, str).entries;
    assert ForVisited(data, {}) == ForVariablePaths(Section(data));
    r := Some((variables, Section(data)));
  }

  ghost function ForVisited(data: map<string, Node>, todo: set<string>): set<Path> {
    set k | k in data && k !in todo && data[k].Text? && HasRef(data[k].tokens) :: [k]
  }

  lemma NamedNothing(prefix: Path, t: Node)
    ensures Named(prefix, t, {}) == map[]
  {}

  lemma NamedExactly(prefix: Path, t: Node, paths: set<Path>, n: Path)
    ensures n in Named(prefix, t, paths) <==> |n| >= |prefix| && n[..|prefix|] == prefix && n[|prefix|..] in paths
    ensures n in Named(prefix, t, paths) ==> Named(prefix, t, paths)[n] == ValueOf(LeafOf(t, n[|prefix|..]))
  {
    PrefixedExactly(prefix, paths, n);
    hide Prefixed, LeafOf, ValueOf;
  }

  lemma ForOneVariable(data: map<string, Node>, todo: set<string>, key: string, value: Node, longKey: Path)
    requires key in todo && todo <= data.Keys
    ensures var before := Named(longKey, Section(data), ForVisited(data, todo));
      var data' := data[key := value];
      Named(longKey, Section(data'), ForVisited(data', todo - {key})) ==
        if value.Text? && HasRef(value.tokens) then before[longKey + [key] := One(value.tokens)] else before
  {
    hide *;
    var data', todo' := data[key := value], todo - {key};
    var before, after := Named(longKey, Section(data), ForVisited(data, todo)),
      Named(longKey, Section(data'), ForVisited(data', todo'));
    var here := value.Text? && HasRef(value.tokens);
    forall n
      ensures n in after <==> n in before || (here && n == longKey + [key])
      ensures n in after ==>
        if n == longKey + [key] then value.Text? && after[n] == One(value.tokens)
        else n in before && after[n] == before[n]
      ensures n in before ==> n != longKey + [key]
    {
      OneForVariable(data, todo, key, value, longKey, n);
    }
  }

  lemma OneForVariable(data: map<string, Node>, todo: set<string>, key: string, value: Node, longKey: Path, n: Path)
    requires key in todo && todo <= data.Keys
    ensures var before := Named(longKey, Section(data), ForVisited(data, todo));
      var after := Named(longKey, Section(data[key := value]), ForVisited(data[key := value], todo - {key}));
      && (n in after <==> n in before || (value.Text? && HasRef(value.tokens) && n == longKey + [key]))
      && (n in after ==>
            if n == longKey + [key] then value.Text? && after[n] == One(value.tokens)
            else n in before && after[n] == before[n])
      && (n in before ==> n != longKey + [key])
  {
    var data', todo' := data[key := value], todo - {key};
    NamedExactly(longKey, Section(data), ForVisited(data, todo), n);
    NamedExactly(longKey, Section(data'), ForVisited(data', todo'), n);
    hide Named, LeafOf, HasRef;
    if |n| >= |longKey| {
      var p := n[|longKey|..];
      OneAfter(n, longKey, key);
      if |p| == 1 && p[0] in data {
        assert p == [p[0]] + [];
        LeafOfEntry(data, p[0], []);
        LeafOfEntry(data', p[0], []);
      }
    }
  }

  lemma OneAfter(n: Path, prefix: Path, key: string)
    requires |n| >= |prefix|
    ensures n == prefix + [key] <==> n[..|prefix|] == prefix && n[|prefix|..] == [key]
  {
    assert n == n[..|prefix|] + n[|prefix|..];
  }

  lemma LeafOfEntry(data: map<string, Node>, k: string, p: Path)
    requires k in data
    ensures LeafOf(Section(data), [k] + p) == LeafOf(data[k], p)
    ensures !data[k].Section? ==> LeafOf(data[k], []) == data[k]
  {
    LeafAtUnder(Section(data), k, p);
  }

  /** The loops, the variables and the new value found under one key. */
  method ReadKey(data: map<string, Node>, key: string, forKeys: Path, str: Str)
    returns (r: Option<(set<Path>, Variables, Node)>)
    requires key in data
    ensures r.Some? <==> ReadableAt(data, key, str)
    ensures r.Some? ==>
      && r.value.0 == LoopsAt(data, key, forKeys) && r.value.2 == ReadAt(data, key, str)
      && r.value.1 == Named(forKeys + [key], r.value.2, PathsAt(key, r.value.2))
    decreases data[key], 1
  {
    hide ReadValue, Marked, Prefixed, Named, VariablePaths;
    LeafVariables(forKeys + [key], data[key]);
    if key == "FOR" {
      var values := ReadForValues(data[key], forKeys + [key], str);
      if values.None? { return None; }
      return Some(({forKeys}, values.value.0, values.value.1));
    }
    match data[key] {
      case Section(entries) =>
        var inner := ReadLoops(entries, forKeys + [key], str);
        if inner.None? { return None; }
        r := Some((inner.value.loops, inner.value.variables, Section(inner.value.data)));
      case _ =>
        r := Some(({}, if Marked(data[key]) then map[forKeys + [key] := ValueOf(data[key])] else map[], data[key]));
    }
  }

  function PathsAt(key: string, t: Node): set<Path> { if key == "FOR" then ForVariablePaths(t) else VariablePaths(t) }

  function LoopsAt(data: map<string, Node>, key: string, forKeys: Path): set<Path>
    requires key in data
  {
    if key == "FOR" then {forKeys} else Prefixed(forKeys + [key], ForPaths(data[key]))
  }

  /** `deep_read_loops`. It fails exactly on values that cannot be read. */
  method ReadLoops(data: map<string, Node>, forKeys: Path, str: Str) returns (r: Option<Reading>)
    ensures r.Some? <==> Readable(Section(data), str)
    ensures r.Some? ==>
      && r.value.loops == Prefixed(forKeys, ForPaths(Section(data)))
      && r.value.variables == VariablesOf(forKeys, Section(r.value.data))
      && Section(r.value.data) == ReadTree(Section(data), str)
    decreases Section(data), 0
  {
    hide ReadPaths, Prefixed, ForPaths, Named, ReadableFor, ReadFor, VariablePaths, Visited, PathsAt;
    var loops, variables: Variables, read, todo := {}, map[], data, data.Keys;
    ReadNothing(data, forKeys);
    while todo != {}
      invariant todo <= data.Keys == read.Keys
      invariant forall k :: k in data && k !in todo ==> ReadableAt(data, k, str) && read[k] == ReadAt(data, k, str)
      invariant forall k :: k in todo ==> read[k] == data[k]
      invariant loops == Prefixed(forKeys, ReadPaths(data, todo))
      invariant variables == Named(forKeys, Section(read), Visited(read, todo))
    {
      var key :| key in todo;
      assert data[key] < Section(data);
      ReadOneKey(data, todo, key, forKeys);
      var found := ReadKey(data, key, forKeys, str);
      if found.None? { return None; }
      ReadOneVariable(read, todo, key, found.value.2, forKeys);
      loops, variables := loops + found.value.0, variables + found.value.1;
      read := read[key := found.value.2];
      todo := todo - {key};
    }
    ReadEverything(data, read, forKeys);
    assert read == ReadTree(Section(data), str).entries;
    r := Some(Reading(loops, variables, read));
  }

  /** The paths of the variables read once only the keys `todo` are left. */
  ghost function Visited(read: map<string, Node>, todo: set<string>): set<Path> {
    set p | p in VariablePaths(Section(read)) && p != [] && p[0] !in todo
  }

  lemma VisitedExactly(read: map<string, Node>, todo: set<string>, p: Path)
    ensures p in Visited(read, todo) <==>
      p != [] && p[0] in read && p[0] !in todo && p[1..] in PathsAt(p[0], read[p[0]])
  {
    if p != [] { assert p == [p[0]] + p[1..]; }
  }

  lemma PrefixedExactly(prefix: Path, paths: set<Path>, n: Path)
    ensures n in Prefixed(prefix, paths) <==> |n| >= |prefix| && n[..|prefix|] == prefix && n[|prefix|..] in paths
  {
    if |n| >= |prefix| && n[..|prefix|] == prefix && n[|prefix|..] in paths { assert n == prefix + n[|prefix|..]; }
  }

  lemma ReadNothing(data: map<string, Node>, forKeys: Path)
    ensures Named(forKeys, Section(data), Visited(data, data.Keys)) == map[]
    ensures Prefixed(forKeys, ReadPaths(data, data.Keys)) == {}
  {
    forall p ensures p !in Visited(data, data.Keys) { VisitedExactly(data, data.Keys, p); }
    assert Visited(data, data.Keys) == {};
  }

  lemma ReadEverything(data: map<string, Node>, read: map<string, Node>, forKeys: Path)
    ensures Named(forKeys, Section(read), Visited(read, {})) == VariablesOf(forKeys, Section(read))
    ensures ReadPaths(data, {}) == ForPaths(Section(data))
  {
    assert Visited(read, {}) == VariablePaths(Section(read));
  }

  lemma ReadOneVariable(read: map<string, Node>, todo: set<string>, key: string, value: Node, forKeys: Path)
    requires key in todo && todo <= read.Keys
    ensures var read' := read[key := value];
      Named(forKeys, Section(read'), Visited(read', todo - {key}))
        == Named(forKeys, Section(read), Visited(read, todo)) + Named(forKeys + [key], value, PathsAt(key, value))
  {
    hide *;
    var read', todo', inner := read[key := value], todo - {key}, Named(forKeys + [key], value, PathsAt(key, value));
    var before, after := Named(forKeys, Section(read), Visited(read, todo)),
      Named(forKeys, Section(read'), Visited(read', todo'));
    forall n
      ensures n in after <==> n in before || n in inner
      ensures n in before ==> n !in inner && after[n] == before[n]
      ensures n in inner ==> after[n] == inner[n]
    {
      OneVariable(read, todo, key, value, forKeys, n);
    }
  }

  lemma OneVariable(read: map<string, Node>, todo: set<string>, key: string, value: Node, forKeys: Path, n: Path)
    requires key in todo && todo <= read.Keys
    ensures var read', inner := read[key := value], Named(forKeys + [key], value, PathsAt(key, value));
      var before, after := Named(forKeys, Section(read), Visited(read, todo)),
        Named(forKeys, Section(read'), Visited(read', todo - {key}));
      && (n in after <==> n in before || n in inner)
      && (n in before ==> n !in inner && after[n] == before[n]) && (n in inner ==> after[n] == inner[n])
  {
    var read', todo' := read[key := value], todo - {key};
    NamedExactly(forKeys, Section(read), Visited(read, todo), n);
    NamedExactly(forKeys, Section(read'), Visited(read', todo'), n);
    NamedExactly(forKeys + [key], value, PathsAt(key, value), n);
    KeyAfter(n, forKeys, key);
    hide Named, Visited, PathsAt, LeafOf;
    if |n| > |forKeys| {
      var p := n[|forKeys|..];
      VisitedExactly(read, todo, p);
      VisitedExactly(read', todo', p);
      assert p == [p[0]] + p[1..] && p[0] == n[|forKeys|] && p[1..] == n[|forKeys|+1..];
      if p[0] in read { LeafOfEntry(read, p[0], p[1..]); LeafOfEntry(read', p[0], p[1..]); }
    } else if |n| == |forKeys| {
      VisitedExactly(read, todo, n[|forKeys|..]);
      VisitedExactly(read', todo', n[|forKeys|..]);
    }
  }

  lemma KeyAfter(n: Path, prefix: Path, key: string)
    ensures |n| >= |prefix + [key]| && n[..|prefix + [key]|] == prefix + [key]
      <==> |n| > |prefix| && n[..|prefix|] == prefix && n[|prefix|] == key
    ensures |prefix + [key]| == |prefix| + 1
  {
    if |n| > |prefix| { assert n[..|prefix|+1] == n[..|prefix|] + [n[|prefix|]]; }
  }

  lemma LeafVariables(prefix: Path, t: Node)
    ensures !t.Section? ==> VariablesOf(prefix, t) == if Marked(t) then map[prefix := ValueOf(t)] else map[]
    ensures !t.Section? ==> Prefixed(prefix, ForPaths(t)) == {}
  {
    if !t.Section? {
      forall n ensures n in VariablesOf(prefix, t) <==> Marked(t) && n == prefix
        ensures n in VariablesOf(prefix, t) ==> VariablesOf(prefix, t)[n] == ValueOf(t)
      {
        NamedExactly(prefix, t, VariablePaths(t), n);
        if |n| >= |prefix| && n[|prefix|..] == [] { assert n == n[..|prefix|]; }
        assert prefix[|prefix|..] == [] && prefix[..|prefix|] == prefix;
      }
      hide VariablesOf, Marked;
    }
  }

  /** The paths read once only the keys `todo` are left. */
  ghost function ReadPaths(data: map<string, Node>, todo: set<string>): set<Path> {
    set p | p in ForPaths(Section(data)) && (if p == [] then "FOR" !in todo else p[0] !in todo)
  }

  lemma ReadOneKey(data: map<string, Node>, todo: set<string>, key: string, forKeys: Path)
    requires key in todo && todo <= data.Keys
    ensures Prefixed(forKeys, ReadPaths(data, todo - {key}))
      == Prefixed(forKeys, ReadPaths(data, todo)) + LoopsAt(data, key, forKeys)
  {
    var here := if key == "FOR" then {[]} else Prefixed([key], ForPaths(data[key]));
    assert ReadPaths(data, todo - {key}) == ReadPaths(data, todo) + here by { ReadHere(data, todo, key); }
    PrefixedUnion(forKeys, ReadPaths(data, todo), here);
    assert forKeys + [] == forKeys;
    if key != "FOR" { PrefixedTwice(forKeys, key, ForPaths(data[key])); }
  }

  lemma ReadHere(data: map<string, Node>, todo: set<string>, key: string)
    requires key in todo && todo <= data.Keys
    ensures ReadPaths(data, todo - {key})
      == ReadPaths(data, todo) + if key == "FOR" then {[]} else Prefixed([key], ForPaths(data[key]))
  {
    forall p | p in ReadPaths(data, todo - {key}) && p != [] && p[0] == key
      ensures key != "FOR" && p in Prefixed([key], ForPaths(data[key]))
    {
      assert p == [key] + p[1..];
    }
  }

  lemma PrefixedUnion(prefix: Path, a: set<Path>, b: set<Path>)
    ensures Prefixed(prefix, a + b) == Prefixed(prefix, a) + Prefixed(prefix, b)
  {}

  lemma PrefixedTwice(prefix: Path, key: string, paths: set<Path>)
    ensures Prefixed(prefix, Prefixed([key], paths)) == Prefixed(prefix + [key], paths)
  {
    assert forall p: Path :: prefix + ([key] + p) == (prefix + [key]) + p;
  }

  /** In a well-formed configuration what is recorded is exactly where the loops are. */
  lemma {:induction false} RecordedAreLoopPaths(t: Node, sc: Scope)
    requires WellFormed(t, sc) && !IsLoop(t)
    ensures ForPaths(t) == LoopPaths(t)
  {
    if t.Section? {
      forall k | k in t.entries ensures ForPaths(t.entries[k]) == LoopPathsAt(t.entries, k) {
        if IsLoop(t.entries[k]) {
          LoopBodyHasNoPaths(k, t.entries[k], sc);
        } else {
          RecordedAreLoopPaths(t.entries[k], sc);
        }
      }
      assert forall k, p :: k in t.entries && p in LoopPathsAt(t.entries, k) ==> k != "FOR";
    }
  }

  lemma LoopBodyHasNoPaths(base: string, s: Node, sc: Scope)
    requires GoodLoop(base, s, sc)
    ensures ForPaths(s) == {[]}
  {
    forall k | k in s.entries && k != "FOR" ensures ForPaths(s.entries[k]) == {} { NoForPaths(s.entries[k]); }
  }

  lemma {:induction false} NoForPaths(t: Node)
    requires NoFor(t)
    ensures ForPaths(t) == {}
  {
    if t.Section? {
      forall k | k in t.entries ensures ForPaths(t.entries[k]) == {} { NoForPaths(t.entries[k]); }
    }
  }

  /** A copy without loops is read as it is, and its variables are the values with placeholders. */
  lemma CopyIsRead(c: Node, str: Str)
    requires c.Section? && NoFor(c)
    ensures Readable(c, str) && ReadTree(c, str) == c && VariablesOf([], c) == OwnVariables(c)
  {
    NoForReads(c, str);
    forall n
      ensures n in VariablesOf([], c) <==> n in OwnVariables(c)
      ensures n in VariablesOf([], c) ==> VariablesOf([], c)[n] == OwnVariables(c)[n]
    {
      NamedExactly([], c, VariablePaths(c), n);
      assert n[0..] == n;
      VariablePathsExactly(c, n);
      OwnExactly(c, n);
    }
    hide VariablesOf, OwnVariables;
  }

  lemma {:induction false} NoForReads(t: Node, str: Str)
    requires NoFor(t)
    ensures Readable(t, str) && ReadTree(t, str) == t
  {
    if t.Section? {
      forall k | k in t.entries ensures Readable(t.entries[k], str) && ReadTree(t.entries[k], str) == t.entries[k] {
        NoForReads(t.entries[k], str);
      }
      assert ReadTree(t, str).entries == t.entries;
    }
  }

  lemma {:induction false} VariablePathsExactly(t: Node, p: Path)
    requires NoFor(t)
    ensures p in VariablePaths(t) <==> LeafAt(t, p).Some? && Marked(LeafAt(t, p).value)
    decreases |p|
  {
    if t.Section? && p != [] {
      assert p == [p[0]] + p[1..];
      if p[0] in t.entries {
        LeafAtUnder(t, p[0], p[1..]);
        VariablePathsExactly(t.entries[p[0]], p[1..]);
      }
    }
  }

  /** Reading moves no loop. */
  lemma {:induction false} ReadKeepsLoops(t: Node, str: Str)
    requires Readable(t, str)
    ensures ForPaths(ReadTree(t, str)) == ForPaths(t)
  {
    if t.Section? {
      var t' := ReadTree(t, str);
      forall k | k in t.entries && k != "FOR" ensures ForPaths(t'.entries[k]) == ForPaths(t.entries[k]) {
        ReadKeepsLoops(t.entries[k], str);
      }
      hide ReadFor;
      assert t'.entries.Keys == t.entries.Keys;
    }
  }

  // ---------------------------------------------------------------- what gets registered

  /** What is written for a value, without brackets at its ends and without quotes. */
  function LoopText(v: Node, str: Str): string {
    Without(Strip(if v.Text? then Written(v.tokens) else str(v), "[]"), '\'')
  }

  /** A list of a FOR that starts with a mapping stays as it is. */
  predicate BecomesText(v: Node) { !v.Section? && !(v.Items? && v.items != [] && v.items[0].Section?) }

  lemma {:induction false} ReadAtPath(t: Node, p: Path, str: Str)
    requires Readable(t, str)
    ensures var leaf, read := LeafAt(t, p), LeafAt(ReadTree(t, str), p);
      && (leaf.Some? <==> read.Some?)
      && (leaf.Some? && ("FOR" !in p || !BecomesText(leaf.value)) ==> read == leaf)
      && (leaf.Some? && "FOR" in p && BecomesText(leaf.value) ==>
            read.value == Text(Tokenised(LoopText(leaf.value, str))))
      && (p in VariablePaths(ReadTree(t, str)) <==>
            read.Some? && if "FOR" in p then BecomesText(leaf.value) && Marked(read.value) else Marked(read.value))
    decreases |p|
  {
    var t' := ReadTree(t, str);
    if t.Section? && p != [] {
      assert p == [p[0]] + p[1..];
      if p[0] in t.entries {
        LeafAtUnder(t, p[0], p[1..]);
        LeafAtUnder(t', p[0], p[1..]);
        hide Tokenised, Written, Strip, Without, HasRef;
        if p[0] != "FOR" {
          ReadAtPath(t.entries[p[0]], p[1..], str);
        } else {
          ForAtPath(t.entries["FOR"], p[1..], str);
        }
      }
    }
  }

  lemma ForAtPath(f: Node, p: Path, str: Str)
    requires ReadableFor(f, str)
    ensures var leaf, read := LeafAt(f, p), LeafAt(ReadFor(f, str), p);
      && (leaf.Some? <==> read.Some?)
      && (leaf.Some? && !BecomesText(leaf.value) ==> read == leaf)
      && (leaf.Some? && BecomesText(leaf.value) ==>
            read.value == Text(Tokenised(LoopText(leaf.value, str))))
      && (p in ForVariablePaths(ReadFor(f, str)) <==> read.Some? && BecomesText(leaf.value) && Marked(read.value))
  {
    hide Tokenised, Written, Strip, Without, HasRef;
    var f' := ReadFor(f, str);
    if p != [] {
      assert p == [p[0]] + p[1..];
      LeafAtUnder(f, p[0], p[1..]);
      LeafAtUnder(f', p[0], p[1..]);
      assert |p| == 1 ==> p == [p[0]];
      assert p in ForVariablePaths(f') <==>
        |p| == 1 && p[0] in f'.entries && f'.entries[p[0]].Text? && HasRef(f'.entries[p[0]].tokens);
      if p[0] in f.entries && p[1..] == [] {
        assert LeafAt(f.entries[p[0]], []) == Some(f.entries[p[0]]);
      }
    }
  }

  predicate IsRegistered(inLoop: bool, v: Node, str: Str) {
    if inLoop then BecomesText(v) && HasRef(Tokenised(LoopText(v, str))) else Marked(v)
  }

  /** What is registered under which name: below the prefix, the texts and lists with placeholders as they are,
      and of the values of the loops those that become texts with placeholders, as these texts. */
  lemma RegisteredExactly(t: Node, str: Str, prefix: Path, n: Path)
    requires Readable(t, str)
    ensures var read, p := VariablesOf(prefix, ReadTree(t, str)), if |n| >= |prefix| then n[|prefix|..] else [];
      var leaf := LeafAt(t, p);
      && (n in read <==> n == prefix + p && leaf.Some? && IsRegistered("FOR" in p, leaf.value, str))
      && (n in read ==>
            read[n] == if "FOR" in p then One(Tokenised(LoopText(leaf.value, str))) else ValueOf(leaf.value))
  {
    NamedExactly(prefix, ReadTree(t, str), VariablePaths(ReadTree(t, str)), n);
    hide Tokenised, Written, Strip, Without, HasRef, Named, VariablePaths, ReadTree;
    if |n| >= |prefix| {
      ReadAtPath(t, n[|prefix|..], str);
      assert n == n[..|prefix|] + n[|prefix|..];
    }
  }

  /** What is recorded are the sections with a FOR that are not themselves below one. */
  lemma {:induction false} RecordedExactly(t: Node, p: Path)
    ensures p in ForPaths(t) <==>
      "FOR" !in p && At(t, p).Some? && At(t, p).value.Section? && "FOR" in At(t, p).value.entries
    decreases |p|
  {
    if t.Section? && p != [] {
      assert p == [p[0]] + p[1..];
      if p[0] in t.entries { RecordedExactly(t.entries[p[0]], p[1..]); }
    }
  }
}

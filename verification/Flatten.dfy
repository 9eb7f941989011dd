/** Flattening a configuration into dotted names (`deep_parameters_export`) and how it
    commutes with merging. */
module Flatten {
  import opened Options
  import opened ConfigTree

  // ---------------------------------------------------------------- paths

  function At(t: Node, p: Path): Option<Node>
    decreases |p|
  {
    if p == [] then Some(t)
    else if t.Section? && p[0] in t.entries then At(t.entries[p[0]], p[1..])
    else None
  }

  /** The paths that lead to a leaf. */
  function LeafPaths(t: Node): set<Path> {
    if t.Section? then set k, p | k in t.entries && p in LeafPaths(t.entries[k]) :: [k] + p
    else {[]}
  }

  function SectionPaths(t: Node): set<Path> {
    if t.Section? then {[]} + set k, p | k in t.entries && p in SectionPaths(t.entries[k]) :: [k] + p
    else {}
  }

  function LeafAt(t: Node, p: Path): Option<Node> {
    var n := At(t, p);
    if n.Some? && n.value.Section? then None else n
  }

  lemma {:induction false} LeafPathsExactly(t: Node, p: Path)
    ensures p in LeafPaths(t) <==> LeafAt(t, p).Some?
    decreases t
  {
    if t.Section? && p != [] && p[0] in t.entries {
      LeafPathsExactly(t.entries[p[0]], p[1..]);
      assert p == [p[0]] + p[1..];
    }
  }

  lemma {:induction false} SectionPathsExactly(t: Node, p: Path)
    ensures p in SectionPaths(t) <==> At(t, p).Some? && At(t, p).value.Section?
    decreases t
  {
    if t.Section? && p != [] && p[0] in t.entries {
      SectionPathsExactly(t.entries[p[0]], p[1..]);
      assert p == [p[0]] + p[1..];
    }
  }

  lemma {:induction false} AtExtended(t: Node, p: Path, k: string)
    ensures At(t, p + [k]) == (if At(t, p).Some? then At(At(t, p).value, [k]) else None)
    decreases |p|
  {
    if p != [] {
      assert (p + [k])[1..] == p[1..] + [k];
      if t.Section? && p[0] in t.entries {
        AtExtended(t.entries[p[0]], p[1..], k);
      }
    } else {
      assert p + [k] == [k];
    }
  }

  lemma {:induction false} AtPrefix(t: Node, p: Path, q: Path)
    requires p <= q && At(t, q).Some?
    ensures At(t, p).Some? && (p != q ==> At(t, p).value.Section? && q[|p|] in At(t, p).value.entries)
    decreases |p|
  {
    if p != [] {
      AtPrefix(t.entries[p[0]], p[1..], q[1..]);
    }
  }

  lemma LeafAtUnder(t: Node, k: string, p: Path)
    requires t.Section?
    ensures LeafAt(t, [k] + p) == if k in t.entries then LeafAt(t.entries[k], p) else None
  {
    assert ([k] + p)[1..] == p;
  }

  // ---------------------------------------------------------------- dotted names

  function Glue(prefix: string, key: string): string {
    if prefix == "" then key else prefix + "." + key
  }

  /** The name a leaf gets when its keys are joined on the way down. */
  function Dotted(p: Path): string {
    if p == [] then "" else Glue(Dotted(p[..|p|-1]), p[|p|-1])
  }

  /** The keys in order, with a dot between any two. */
  lemma DottedGrows(p: Path, k: string)
    ensures Dotted([k]) == k && (p != [] && PlainPath(p) ==> Dotted(p + [k]) == Dotted(p) + "." + k)
  {
    assert [k][..0] == [] && (p + [k])[..|p|] == p;
    if p != [] && PlainPath(p) { SplitDotted(p); }
  }

  /** `split(".")`. */
  function SplitDots(s: string): (r: seq<string>)
    ensures r != []
  {
    if s == "" then [""]
    else
      var rest := SplitDots(s[1..]);
      if s[0] == '.' then [""] + rest else [[s[0]] + rest[0]] + rest[1..]
  }

  predicate PlainKey(k: string) { k != "" && '.' !in k }

  predicate PlainPath(p: Path) { forall i :: 0 <= i < |p| ==> PlainKey(p[i]) }

  lemma {:induction false} SplitPlain(k: string)
    requires '.' !in k
    ensures SplitDots(k) == [k]
  {
    if k != "" {
      SplitPlain(k[1..]);
      assert [k[0]] + k[1..] == k;
    }
  }

  lemma {:induction false} SplitGlued(s: string, k: string)
    requires '.' !in k
    ensures SplitDots(s + "." + k) == SplitDots(s) + [k]
  {
    var t := s + "." + k;
    if s == "" {
      assert t[1..] == k;
      SplitPlain(k);
    } else {
      assert t[1..] == s[1..] + "." + k;
      SplitGlued(s[1..], k);
    }
  }

  /** Splitting a dotted name gives back the keys, so no two plain paths share a name. */
  lemma {:induction false} SplitDotted(p: Path)
    requires PlainPath(p)
    ensures p != [] ==> Dotted(p) != "" && SplitDots(Dotted(p)) == p
  {
    if p != [] {
      var init, last := p[..|p|-1], p[|p|-1];
      SplitDotted(init);
      SplitPlain(last);
      if init != [] { SplitGlued(Dotted(init), last); }
      assert p == init + [last];
    }
  }

  ghost predicate PlainTree(t: Node) {
    forall p :: p in LeafPaths(t) ==> PlainPath(p)
  }

  function Names(t: Node): set<string> {
    set p | p in LeafPaths(t) :: Dotted(p)
  }

  function LeafNamed(t: Node, name: string): Node {
    var leaf := LeafAt(t, SplitDots(name));
    if leaf.Some? then leaf.value else BLANK
  }

  /** The meaning of the export: every leaf under its dotted name. */
  function Export(t: Node): map<string, Node> {
    map name | name in Names(t) :: LeafNamed(t, name)
  }

  /** No two leaves collide, and none is lost. */
  lemma NoTwoLeavesCollide(t: Node, p: Path, q: Path)
    requires t.Section? && PlainTree(t) && p in LeafPaths(t) && q in LeafPaths(t)
    ensures Dotted(p) == Dotted(q) <==> p == q
    ensures Dotted(p) in Export(t) && LeafAt(t, p) == Some(Export(t)[Dotted(p)])
  {
    LeafPathsExactly(t, p);
    LeafPathsExactly(t, q);
    SplitDotted(p);
    SplitDotted(q);
  }

  // ---------------------------------------------------------------- the stack loop

  ghost predicate Under(prefixes: seq<Path>, p: Path) {
    exists i :: 0 <= i < |prefixes| && prefixes[i] <= p
  }

  /** The sections still to be visited from the stack. */
  ghost function Pending(t: Node, prefixes: seq<Path>): set<Path> {
    set q | q in SectionPaths(t) && Under(prefixes, q)
  }

  ghost predicate Incomparable(prefixes: seq<Path>) {
    forall i, j :: 0 <= i < |prefixes| && 0 <= j < |prefixes| && i != j ==> !(prefixes[i] <= prefixes[j])
  }

  /** No stack entry lies above `here`, or below one of its unvisited keys. */
  ghost predicate ClearOf(prefixes: seq<Path>, here: Path, todo: set<string>) {
    forall i :: 0 <= i < |prefixes| ==>
      !(prefixes[i] <= here) && (here <= prefixes[i] ==> prefixes[i][|here|] !in todo)
  }

  /** Each stack entry is the section of `t` that its prefix leads to, with its dotted name. */
  ghost predicate StackMatches(t: Node, stack: seq<(map<string, Node>, string)>, prefixes: seq<Path>) {
    && |stack| == |prefixes|
    && forall i :: 0 <= i < |stack| ==>
      At(t, prefixes[i]) == Some(Section(stack[i].0)) && stack[i].1 == Dotted(prefixes[i])
  }

  /** The parameters hold exactly the leaves at the paths `done`. */
  ghost predicate Exported(t: Node, done: set<Path>, parameters: map<string, Node>) {
    && (forall p :: p in done ==> Dotted(p) in parameters)
    && (forall name :: name in parameters ==> ExportedFrom(t, done, name, parameters[name]))
  }

  ghost predicate ExportedFrom(t: Node, done: set<Path>, name: string, value: Node) {
    exists p :: p in done && Dotted(p) == name && LeafAt(t, p) == Some(value)
  }

  /** Every leaf is done, below a stack entry, or below an unvisited key of `here`. */
  ghost predicate Covering(t: Node, done: set<Path>, prefixes: seq<Path>, here: Path, todo: set<string>) {
    forall p :: p in LeafPaths(t) ==> p in done || Under(prefixes, p) || (here < p && p[|here|] in todo)
  }

  lemma CoveringPopped(t: Node, done: set<Path>, prefixes: seq<Path>, here: Path)
    requires At(t, here).Some? && At(t, here).value.Section?
    requires Covering(t, done, prefixes + [here], here, {})
    ensures Covering(t, done, prefixes, here, At(t, here).value.entries.Keys)
  {
    forall p | p in LeafPaths(t) && p !in done && !Under(prefixes, p)
      ensures here < p && p[|here|] in At(t, here).value.entries
    {
      LeafPathsExactly(t, p);
      var all := prefixes + [here];
      var i :| 0 <= i < |all| && all[i] <= p;
      assert i == |prefixes| && here <= p;
      assert p != here;
      AtPrefix(t, here, p);
    }
  }

  lemma CoveringStep(t: Node, done: set<Path>, prefixes: seq<Path>, here: Path, todo: set<string>, key: string)
    requires At(t, here + [key]).Some? && Covering(t, done, prefixes, here, todo)
    ensures var child := here + [key];
      if At(t, child).value.Section? then Covering(t, done, prefixes + [child], here, todo - {key})
      else Covering(t, done + {child}, prefixes, here, todo - {key})
  {
    var child := here + [key];
    var all := prefixes + [child];
    forall p | p in LeafPaths(t)
      ensures Under(prefixes, p) ==> Under(all, p)
      ensures here < p && p[|here|] == key ==> Under(all, p) && (!At(t, child).value.Section? ==> p == child)
    {
      LeafPathsExactly(t, p);
      if Under(prefixes, p) {
        var i :| 0 <= i < |prefixes| && prefixes[i] <= p;
        assert all[i] <= p;
      }
      if here < p && p[|here|] == key {
        assert all[|prefixes|] <= p;
        if p != child { AtPrefix(t, child, p); }
      }
    }
  }

  lemma PendingStep(t: Node, prefixes: seq<Path>, before: seq<Path>, here: Path, child: Path)
    requires before != [] && here == before[|before|-1] && here <= child
    requires Pending(t, prefixes) <= Pending(t, before)
    ensures Pending(t, prefixes + [child]) <= Pending(t, before)
  {
    forall q | q in Pending(t, prefixes + [child]) ensures q in Pending(t, before) {
      var all := prefixes + [child];
      var i :| 0 <= i < |all| && all[i] <= q;
      if i < |prefixes| {
        assert prefixes[i] <= q;
        assert Under(prefixes, q);
      } else {
        assert before[|before|-1] <= q;
      }
    }
  }

  lemma PendingShrinks(t: Node, prefixes: seq<Path>, before: seq<Path>, here: Path)
    requires before != [] && here == before[|before|-1] && At(t, here).Some? && At(t, here).value.Section?
    requires Pending(t, prefixes) <= Pending(t, before) && ClearOf(prefixes, here, {})
    ensures |Pending(t, prefixes)| < |Pending(t, before)|
  {
    SectionPathsExactly(t, here);
    assert Under(before, here);
    var small, big := Pending(t, prefixes), Pending(t, before);
    assert here in big && here !in small;
    assert small <= big - {here};
    SubsetFits(small, big - {here});
  }

  lemma {:induction false} SubsetFits<T>(small: set<T>, big: set<T>)
    requires small <= big
    ensures |small| <= |big|
  {
    assert big == small + (big - small);
  }

  lemma ExportedStep(t: Node, done: set<Path>, parameters: map<string, Node>, child: Path, value: Node)
    requires Exported(t, done, parameters) && LeafAt(t, child) == Some(value)
    ensures Exported(t, done + {child}, parameters[Dotted(child) := value])
  {
    var after := parameters[Dotted(child) := value];
    forall name | name in after ensures ExportedFrom(t, done + {child}, name, after[name]) {
      if name == Dotted(child) {
        assert child in done + {child};
      } else {
        var p :| p in done && Dotted(p) == name && LeafAt(t, p) == Some(parameters[name]);
        assert p in done + {child};
      }
    }
  }

  /** The state of the export while it visits the keys `todo` of the section at `here`. */
  ghost predicate Visiting(t: Node, stack: seq<(map<string, Node>, string)>, prefixes: seq<Path>, done: set<Path>,
                           parameters: map<string, Node>, here: Path, todo: set<string>)
  {
    && StackMatches(t, stack, prefixes) && Incomparable(prefixes) && ClearOf(prefixes, here, todo)
    && done <= LeafPaths(t) && Exported(t, done, parameters)
    && Covering(t, done, prefixes, here, todo)
  }

  lemma VisitSection(t: Node, stack: seq<(map<string, Node>, string)>, prefixes: seq<Path>, done: set<Path>,
                     parameters: map<string, Node>, here: Path, todo: set<string>, key: string,
                     child: map<string, Node>)
    requires Visiting(t, stack, prefixes, done, parameters, here, todo)
    requires key in todo && At(t, here + [key]) == Some(Section(child))
    ensures Visiting(t, stack + [(child, Dotted(here + [key]))], prefixes + [here + [key]], done, parameters, here,
      todo - {key})
  {
    CoveringStep(t, done, prefixes, here, todo, key);
  }

  lemma VisitLeaf(t: Node, stack: seq<(map<string, Node>, string)>, prefixes: seq<Path>, done: set<Path>,
                  parameters: map<string, Node>, here: Path, todo: set<string>, key: string, leaf: Node)
    requires Visiting(t, stack, prefixes, done, parameters, here, todo)
    requires key in todo && LeafAt(t, here + [key]) == Some(leaf)
    ensures Visiting(t, stack, prefixes, done + {here + [key]}, parameters[Dotted(here + [key]) := leaf], here,
      todo - {key})
  {
    CoveringStep(t, done, prefixes, here, todo, key);
    ExportedStep(t, done, parameters, here + [key], leaf);
    LeafPathsExactly(t, here + [key]);
  }

  /** Between two sections the state is that of having no key left to visit. */
  ghost predicate Between(t: Node, stack: seq<(map<string, Node>, string)>, prefixes: seq<Path>, done: set<Path>,
                          parameters: map<string, Node>)
  {
    && StackMatches(t, stack, prefixes) && Incomparable(prefixes)
    && done <= LeafPaths(t) && Exported(t, done, parameters)
    && Covering(t, done, prefixes, [], {})
  }

  lemma VisitPopped(t: Node, stack: seq<(map<string, Node>, string)>, prefixes: seq<Path>, done: set<Path>,
                    parameters: map<string, Node>)
    requires stack != [] && Between(t, stack, prefixes, done, parameters)
    ensures var n := |stack| - 1;
      && At(t, prefixes[n]) == Some(Section(stack[n].0)) && stack[n].1 == Dotted(prefixes[n])
      && Visiting(t, stack[..n], prefixes[..n], done, parameters, prefixes[n], stack[n].0.Keys)
      && Pending(t, prefixes[..n]) <= Pending(t, prefixes)
  {
    var n := |stack| - 1;
    var rest, here := prefixes[..n], prefixes[n];
    assert prefixes == rest + [here];
    CoveringPopped(t, done, rest, here);
    forall q | Under(rest, q) ensures Under(prefixes, q) {
      var i :| 0 <= i < |rest| && rest[i] <= q;
      assert prefixes[i] <= q;
    }
  }

  /** `deep_parameters_export`, with its explicit stack. */
  method DeepParametersExport(data: map<string, Node>) returns (parameters: map<string, Node>)
    ensures Exported(Section(data), LeafPaths(Section(data)), parameters)
    ensures PlainTree(Section(data)) ==> parameters == Export(Section(data))
  {
    ghost var t := Section(data);
    ghost var prefixes: seq<Path> := [[]];
    ghost var done: set<Path> := {};
    parameters := map[];
    var stack := [(data, "")];
    assert Covering(t, done, prefixes, [], {}) by {
      forall p | p in LeafPaths(t) ensures Under(prefixes, p) { assert prefixes[0] <= p; }
    }
    while stack != []
      invariant |stack| == |prefixes| && Between(t, stack, prefixes, done, parameters)
      decreases |Pending(t, prefixes)|
    {
      VisitPopped(t, stack, prefixes, done, parameters);
      var last := |stack| - 1;
      var (currentData, currentKey) := stack[last];
      ghost var here, before := prefixes[last], prefixes;
      stack, prefixes := stack[..last], prefixes[..last];
      var todo := currentData.Keys;
      while todo != {}
        invariant todo <= currentData.Keys
        invariant Visiting(t, stack, prefixes, done, parameters, here, todo)
        invariant Pending(t, prefixes) <= Pending(t, before)
      {
        var key :| key in todo;
        var newKey := if currentKey != "" then currentKey + "." + key else key;
        DottedChild(here, key);
        AtChild(t, here, key, currentData);
        if currentData[key].Section? {
          VisitSection(t, stack, prefixes, done, parameters, here, todo, key, currentData[key].entries);
          PendingStep(t, prefixes, before, here, here + [key]);
          stack, prefixes := stack + [(currentData[key].entries, newKey)], prefixes + [here + [key]];
        } else {
          VisitLeaf(t, stack, prefixes, done, parameters, here, todo, key, currentData[key]);
          parameters := parameters[newKey := currentData[key]];
          done := done + {here + [key]};
        }
        todo := todo - {key};
      }
      PendingShrinks(t, prefixes, before, here);
    }
    assert done == LeafPaths(t);
    if PlainTree(t) {
      ExportedIsExport(t, parameters);
    }
  }

  lemma DottedChild(here: Path, key: string)
    ensures Dotted(here + [key]) == Glue(Dotted(here), key)
  {
    assert (here + [key])[..|here + [key]|-1] == here;
  }

  lemma AtChild(t: Node, here: Path, key: string, entries: map<string, Node>)
    requires At(t, here) == Some(Section(entries)) && key in entries
    ensures At(t, here + [key]) == Some(entries[key])
  {
    AtExtended(t, here, key);
    assert At(Section(entries), [key]) == At(entries[key], []);
  }

  lemma ExportedIsExport(t: Node, parameters: map<string, Node>)
    requires t.Section? && PlainTree(t) && Exported(t, LeafPaths(t), parameters)
    ensures parameters == Export(t)
  {
    forall name | name in parameters
      ensures name in Names(t) && parameters[name] == LeafNamed(t, name)
    {
      assert ExportedFrom(t, LeafPaths(t), name, parameters[name]);
      var p :| p in LeafPaths(t) && Dotted(p) == name && LeafAt(t, p) == Some(parameters[name]);
      NoTwoLeavesCollide(t, p, p);
    }
    assert Names(t) == parameters.Keys;
  }

  // ---------------------------------------------------------------- with merging

  /** `b` written over `a`, whether or not `b` is a mapping. */
  function Over(a: Node, b: Node): Node {
    if b.Section? then Merge(a, b) else b
  }

  /** Each leaf of `m` is the leaf of `b` at its path or, where `b` has none, that of `a`. */
  ghost predicate Overlays(m: Node, a: Node, b: Node) {
    forall p: Path :: LeafAt(m, p) == if LeafAt(b, p).Some? then LeafAt(b, p) else LeafAt(a, p)
  }

  /** No leaf of `a` becomes a mapping, and no mapping of `a` that holds a leaf becomes one. */
  ghost predicate OverlaysCleanly(a: Node, b: Node)
    decreases b
  {
    if b.Section? then
      a.Section? && forall k :: k in b.entries && k in a.entries ==> OverlaysCleanly(a.entries[k], b.entries[k])
    else
      LeafPaths(a) <= {[]}
  }

  /** The leaves of a merge are those of `b` over those of `a` in exactly these cases. */
  lemma {:induction false} MergeOverlaysExactly(a: Node, b: Node)
    ensures Overlays(Over(a, b), a, b) <==> OverlaysCleanly(a, b)
    decreases b
  {
    var m := Over(a, b);
    if !b.Section? {
      forall p | p in LeafPaths(a) ensures LeafAt(a, p).Some? { LeafPathsExactly(a, p); }
      if OverlaysCleanly(a, b) {
        forall p: Path | p != [] ensures LeafAt(a, p) == None { LeafPathsExactly(a, p); }
      }
    } else if !a.Section? {
      assert LeafAt(a, []).Some? && LeafAt(m, []) == None;
    } else {
      forall k | k in a.entries && k in b.entries
        ensures Overlays(m.entries[k], a.entries[k], b.entries[k]) <==> OverlaysCleanly(a.entries[k], b.entries[k])
      {
        MergeOverlaysExactly(a.entries[k], b.entries[k]);
      }
      forall k | k in b.entries && k !in a.entries ensures m.entries[k] == b.entries[k] {
        if b.entries[k].Section? { MergeIntoNonMapping(BLANK, b.entries[k]); }
      }
      OverlaysByKey(m, a, b);
    }
  }

  lemma OverlaysByKey(m: Node, a: Node, b: Node)
    requires m.Section? && a.Section? && b.Section? && m.entries.Keys == a.entries.Keys + b.entries.Keys
    requires forall k :: k in m.entries && k !in b.entries ==> m.entries[k] == a.entries[k]
    requires forall k :: k in m.entries && k !in a.entries ==> m.entries[k] == b.entries[k]
    ensures Overlays(m, a, b) <==>
      forall k :: k in a.entries && k in b.entries ==> Overlays(m.entries[k], a.entries[k], b.entries[k])
  {
    if forall k :: k in a.entries && k in b.entries ==> Overlays(m.entries[k], a.entries[k], b.entries[k]) {
      forall p: Path
        ensures LeafAt(m, p) == if LeafAt(b, p).Some? then LeafAt(b, p) else LeafAt(a, p)
      {
        if p != [] && p[0] in m.entries {
          assert p == [p[0]] + p[1..];
          LeafAtUnder(m, p[0], p[1..]); LeafAtUnder(a, p[0], p[1..]); LeafAtUnder(b, p[0], p[1..]);
        }
      }
    }
    if Overlays(m, a, b) {
      forall k, p: Path | k in a.entries && k in b.entries
        ensures LeafAt(m.entries[k], p) ==
          if LeafAt(b.entries[k], p).Some? then LeafAt(b.entries[k], p) else LeafAt(a.entries[k], p)
      {
        LeafAtUnder(m, k, p); LeafAtUnder(a, k, p); LeafAtUnder(b, k, p);
      }
    }
  }

  lemma {:induction false} ConsistentTreesOverlay(a: Node, b: Node)
    requires KindConsistent(a, b)
    ensures OverlaysCleanly(a, b)
    decreases b
  {
    if b.Section? {
      forall k | k in b.entries && k in a.entries ensures OverlaysCleanly(a.entries[k], b.entries[k]) {
        ConsistentTreesOverlay(a.entries[k], b.entries[k]);
      }
    }
  }

  lemma OverlaidLeafPaths(m: Node, a: Node, b: Node)
    requires m.Section? && a.Section? && b.Section? && Overlays(m, a, b)
    ensures LeafPaths(m) == LeafPaths(a) + LeafPaths(b)
  {
    forall p: Path ensures p in LeafPaths(m) <==> p in LeafPaths(a) || p in LeafPaths(b) {
      LeafPathsExactly(m, p); LeafPathsExactly(a, p); LeafPathsExactly(b, p);
    }
    hide LeafPaths, LeafAt;
  }

  lemma OverlaidExport(m: Node, a: Node, b: Node)
    requires m.Section? && a.Section? && b.Section? && PlainTree(m) && PlainTree(a) && PlainTree(b)
    requires Overlays(m, a, b) && LeafPaths(m) == LeafPaths(a) + LeafPaths(b)
    ensures Export(m) == Export(a) + Export(b)
  {
    hide LeafPaths, LeafAt, Overlays, PlainTree, LeafNamed, Dotted;
    forall name: string
      ensures name in Names(m) <==> name in Names(a) || name in Names(b)
      ensures name in Names(m) ==>
        LeafNamed(m, name) == if name in Names(b) then LeafNamed(b, name) else LeafNamed(a, name)
    {
      if name in Names(m) || name in Names(a) || name in Names(b) {
        var p :| p in LeafPaths(m) && Dotted(p) == name;
        OverlaidName(m, a, b, p);
      }
    }
  }

  /** Flattening a merge overlays the flattenings: export(deep_update(a, b)) is export(a)
      overridden by export(b). */
  lemma ExportCommutesWithMerge(a: Node, b: Node)
    requires a.Section? && b.Section? && OverlaysCleanly(a, b) && PlainTree(a) && PlainTree(b)
    ensures PlainTree(Merge(a, b)) && Export(Merge(a, b)) == Export(a) + Export(b)
  {
    var m := Merge(a, b);
    MergeOverlaysExactly(a, b);
    OverlaidLeafPaths(m, a, b);
    hide Export, LeafAt, Overlays, OverlaysCleanly;
    OverlaidExport(m, a, b);
  }

  lemma OverlaidName(m: Node, a: Node, b: Node, p: Path)
    requires m.Section? && a.Section? && b.Section? && PlainTree(m) && PlainTree(a) && PlainTree(b)
    requires Overlays(m, a, b) && p in LeafPaths(m)
    ensures var name := Dotted(p);
      && name in Names(m) && (name in Names(a) || name in Names(b))
      && LeafNamed(m, name) == if name in Names(b) then LeafNamed(b, name) else LeafNamed(a, name)
  {
    LeafPathsExactly(m, p);
    NamedExactly(m, p); NamedExactly(a, p); NamedExactly(b, p);
    SplitDotted(p);
  }

  lemma NamedExactly(t: Node, p: Path)
    requires t.Section? && PlainTree(t) && PlainPath(p) && p != []
    ensures Dotted(p) in Names(t) <==> LeafAt(t, p).Some?
  {
    LeafPathsExactly(t, p);
    SplitDotted(p);
    if Dotted(p) in Names(t) {
      var q :| q in LeafPaths(t) && Dotted(q) == Dotted(p);
      LeafPathsExactly(t, q);
      SplitDotted(q);
    }
  }

  /** Below a leaf nothing is found. */
  ghost predicate BelowLeaf(t: Node, p: Path) {
    exists i :: 0 <= i < |p| && At(t, p[..i]).Some? && !At(t, p[..i]).value.Section?
  }

  lemma BelowLeafOneMore(t: Node, p: Path)
    requires p != []
    ensures BelowLeaf(t, p) <==> !t.Section? || (p[0] in t.entries && BelowLeaf(t.entries[p[0]], p[1..]))
  {
    if i :| 0 <= i < |p| && At(t, p[..i]).Some? && !At(t, p[..i]).value.Section? {
      if i > 0 {
        assert p[..i][1..] == p[1..][..i - 1];
        assert t.Section? && p[0] in t.entries;
      }
    }
    if !t.Section? { assert p[..0] == []; }
    if t.Section? && p[0] in t.entries && BelowLeaf(t.entries[p[0]], p[1..]) {
      var i :| 0 <= i < |p[1..]| && At(t.entries[p[0]], p[1..][..i]).Some?
        && !At(t.entries[p[0]], p[1..][..i]).value.Section?;
      assert p[..i + 1][1..] == p[1..][..i];
    }
  }

  /** What a merge holds at any path: where the update has a leaf, that leaf, and nothing below; where it
      has a mapping, a mapping with the keys of both; and elsewhere what was there. */
  lemma {:induction false} MergeAtPath(base: Node, update: Node, p: Path)
    requires update.Section?
    ensures var m, u, b := At(Merge(base, update), p), At(update, p), At(base, p);
      if BelowLeaf(update, p) then m == None
      else if u == None then m == b
      else if !u.value.Section? then m == u
      else m.Some? && m.value.Section? && m.value.entries.Keys == u.value.entries.Keys
             + if b.Some? && b.value.Section? then b.value.entries.Keys else {}
    decreases |p|
  {
    if p != [] {
      BelowLeafOneMore(update, p);
      var k := p[0];
      if k in update.entries {
        if update.entries[k].Section? {
          MergeAtPath(GetOr(Entries(base), k, BLANK), update.entries[k], p[1..]);
        } else {
          BelowLeafAt(update.entries[k], p[1..]);
        }
      }
    }
  }

  lemma BelowLeafAt(t: Node, p: Path)
    requires !t.Section?
    ensures p != [] ==> BelowLeaf(t, p)
    ensures p == [] ==> !BelowLeaf(t, p)
  {
    if p != [] { BelowLeafOneMore(t, p); }
  }
}

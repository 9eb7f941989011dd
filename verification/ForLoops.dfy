/** Expansion of FOR sections: every section that holds a FOR is replaced by one section for
    each NAME, whatever the order in which the recorded loops are taken. */
module ForLoops {
  import opened Options
  import opened ConfigTree
  import opened Flatten
  import opened Digraph
  import opened Placeholders
  import opened Expansion
  import opened Substitution
  import opened Rewriting
  import opened FullSubstitution
  import opened ForValues

  // ---------------------------------------------------------------- one loop

  predicate IsLoop(s: Node) { s.Section? && "FOR" in s.entries }

  function ForEntries(s: Node): map<string, Node> {
    Entries(GetOr(Entries(s), "FOR", BLANK))
  }

  /** The values of a FOR entry, as they are taken apart; none if they cannot be. */
  function ListOf(n: Node, str: Str): seq<Node> {
    match Values(n, str)
    case Some(values) => values
    case None => []
  }

  function NamesOf(s: Node, str: Str): seq<Node> {
    ListOf(GetOr(ForEntries(s), "NAME", BLANK), str)
  }

  function Upper(s: string): string {
    if s == "" then ""
    else [if 'a' <= s[0] <= 'z' then (s[0] as int - 32) as char else s[0]] + Upper(s[1..])
  }

  function NameText(n: Node): string { if n.Text? then Written(n.tokens) else "" }

  /** The name of the section made for the i-th NAME. */
  function SectionName(base: string, s: Node, i: nat, str: Str): string
    requires i < |NamesOf(s, str)|
  {
    base + "_" + Upper(NameText(NamesOf(s, str)[i]))
  }

  function ElementAt(s: Node, key: string, i: nat, str: Str): Node {
    var items := ListOf(GetOr(ForEntries(s), key, BLANK), str);
    if i < |items| then items[i] else BLANK
  }

  /** The copy made for the i-th NAME: the body without FOR, and the name. */
  function Copy(s: Node, i: nat, str: Str): Node {
    Section((Entries(s) - {"FOR"})["NAME" := ElementAt(s, "NAME", i, str)])
  }

  /** The i-th element of every list but NAME. */
  function ElementsAt(s: Node, i: nat, str: Str): map<string, Node> {
    map k | k in ForEntries(s) && k != "NAME" :: ElementAt(s, k, i, str)
  }

  /** The section made for the i-th NAME: the copy with its placeholders expanded, and the i-th
      element of every other list. */
  ghost function Instance(s: Node, i: nat, str: Str): Node {
    Section(Entries(Rewritten(Copy(s, i, str), Leaves(Copy(s, i, str)))) + ElementsAt(s, i, str))
  }

  predicate Skipped(base: string, s: Node, i: nat, str: Str)
    requires i < |NamesOf(s, str)|
  {
    '%' in SectionName(base, s, i, str)
  }

  /** The sections written for the first `n` NAMEs. Names with a placeholder are skipped. */
  ghost function Generated(base: string, s: Node, n: nat, str: Str): map<string, Node>
    requires n <= |NamesOf(s, str)|
  {
    if n == 0 then map[]
    else
      var before := Generated(base, s, n - 1, str);
      if Skipped(base, s, n - 1, str) then before
      else before[SectionName(base, s, n - 1, str) := Instance(s, n - 1, str)]
  }

  /** What one key of a mapping contributes: the sections of its loop, if it is one. */
  ghost function Made(base: string, s: Node, str: Str): map<string, Node> {
    if IsLoop(s) then Generated(base, s, |NamesOf(s, str)|, str) else map[]
  }

  /** FOR is a mapping with NAME, and all its values can be taken apart. */
  predicate Legible(s: Node, str: Str) {
    && IsLoop(s) && s.entries["FOR"].Section? && "NAME" in ForEntries(s)
    && forall k :: k in ForEntries(s) ==> Values(ForEntries(s)[k], str).Some?
  }

  /** The expansion of the loop raises no exception: the names are texts, and no list ends before
      the NAMEs that are not skipped. */
  predicate Runnable(base: string, s: Node, str: Str) {
    Legible(s, str) && forall i :: 0 <= i < |NamesOf(s, str)| ==> RunnableAt(base, s, i, str)
  }

  predicate RunnableAt(base: string, s: Node, i: nat, str: Str)
    requires i < |NamesOf(s, str)|
  {
    NamesOf(s, str)[i].Text? && (Skipped(base, s, i, str) || LongEnough(s, i, str))
  }

  predicate LongEnough(s: Node, i: nat, str: Str) {
    forall k :: k in ForEntries(s) ==> i < |ListOf(ForEntries(s)[k], str)|
  }

  // ---------------------------------------------------------------- all loops

  /** Where the loops are: the paths recorded while the configuration is read. */
  function LoopPaths(t: Node): set<Path> {
    if !t.Section? then {}
    else set k, p | k in t.entries && p in (if IsLoop(t.entries[k]) then {[]} else LoopPaths(t.entries[k])) :: [k] + p
  }

  function LoopPathsAt(m: map<string, Node>, k: string): set<Path> {
    if k !in m then {} else if IsLoop(m[k]) then {[]} else LoopPaths(m[k])
  }

  /** One iteration of `parse_data_loops`; None stands for an exception. */
  ghost function ExpandAt(t: Node, p: Path, str: Str): Option<Node>
    decreases |p|
  {
    if p == [] || !t.Section? || p[0] !in t.entries then None
    else if |p| == 1 then
      if Runnable(p[0], t.entries[p[0]], str)
      then Some(Section((t.entries - {p[0]}) + Made(p[0], t.entries[p[0]], str)))
      else None
    else
      match ExpandAt(t.entries[p[0]], p[1..], str)
      case Some(child) => Some(Section(t.entries[p[0] := child]))
      case None => None
  }

  ghost function ExpandInOrder(t: Node, order: seq<Path>, str: Str): Option<Node>
    decreases |order|
  {
    if order == [] then Some(t)
    else
      match ExpandAt(t, order[0], str)
      case Some(next) => ExpandInOrder(next, order[1..], str)
      case None => None
  }

  // ---------------------------------------------------------------- what the expansion means

  ghost predicate NoFor(t: Node) {
    t.Section? ==> "FOR" !in t.entries && forall k :: k in t.entries ==> NoFor(t.entries[k])
  }

  /** What occurs while the loops are expanded: the names of variables that are texts, and of those
      that are lists, the placeholders, the default parameters, and how lists are written. */
  datatype Scope = Scope(texts: set<Path>, lists: set<Path>, refs: set<Path>, defaults: set<string>, str: Str)

  ghost predicate LeadsToText(t: Node, n: Path) { ClearOfLeaves(t, n) && (At(t, n).Some? ==> At(t, n).value.Text?) }

  ghost predicate LeadsNowhere(t: Node, n: Path) { ClearOfLeaves(t, n) && At(t, n) == None }

  /** A copy in which substitution is meaningful: it may be substituted in, and variables and
      placeholders, its own and those of others, lead to leaves of it or to nothing. */
  ghost predicate GoodCopy(c: Node, sc: Scope) {
    && c.Section? && NoFor(c) && Acyclic(RefGraph(Leaves(c))) && RefsAmong(c, sc.refs)
    && Unshifted(FrameOf(c, {}, sc.defaults, sc.refs))
    && (forall n :: n in OwnVariables(c) ==>
          Full(LeafOf(c, n)) && n in (if OwnVariables(c)[n].One? then sc.texts else sc.lists))
    && (forall n :: n in sc.texts && n !in OwnVariables(c) ==> LeadsToText(c, n))
    && (forall n :: n in sc.lists && n !in OwnVariables(c) ==> LeadsNowhere(c, n))
    && (forall r :: r in sc.refs ==> NamesLeaf(c, r))
  }

  /** A loop that runs, holds no further loop, and makes a different name for each NAME. */
  ghost predicate GoodLoop(base: string, s: Node, sc: Scope) {
    && Runnable(base, s, sc.str)
    && (forall k :: k in s.entries && k != "FOR" ==> NoFor(s.entries[k]))
    && "FOR" !in ForEntries(s)
    && (forall k, i :: k in ForEntries(s) ==> NoFor(ElementAt(s, k, i, sc.str)))
    && (forall i, j :: 0 <= i < j < |NamesOf(s, sc.str)| ==>
          SectionName(base, s, i, sc.str) != SectionName(base, s, j, sc.str))
    && (forall i :: 0 <= i < |NamesOf(s, sc.str)| && !Skipped(base, s, i, sc.str) ==> GoodCopy(Copy(s, i, sc.str), sc))
  }

  /** No generated name is already a key, or generated by two loops. */
  ghost predicate NamesApart(m: map<string, Node>, str: Str) {
    && (forall b, k :: b in m && k in Made(b, m[b], str) ==> k !in m)
    && (forall b, c, k :: b in m && c in m && k in Made(b, m[b], str) && k in Made(c, m[c], str) ==> b == c)
  }

  ghost predicate WellFormed(t: Node, sc: Scope) {
    t.Section? ==>
      && NamesApart(t.entries, sc.str)
      && forall k :: k in t.entries ==>
        if IsLoop(t.entries[k]) then GoodLoop(k, t.entries[k], sc) else WellFormed(t.entries[k], sc)
  }

  ghost function MadeKeys(m: map<string, Node>, str: Str): set<string> {
    set b, k | b in m && k in Made(b, m[b], str) :: k
  }

  ghost function MadeAt(m: map<string, Node>, k: string, str: Str): Node
    requires k in MadeKeys(m, str)
  {
    var b :| b in m && k in Made(b, m[b], str);
    Made(b, m[b], str)[k]
  }

  ghost function KeptKeys(m: map<string, Node>): set<string> {
    set k | k in m && !IsLoop(m[k])
  }

  /** The expanded configuration: every section that is no loop stays, expanded inside, and
      every loop gives way to the sections it makes. */
  ghost function Expanded(t: Node, str: Str): Node {
    if !t.Section? then t
    else
      var m := t.entries;
      Section(map k | k in KeptKeys(m) + MadeKeys(m, str) ::
        if k in m && !IsLoop(m[k]) then Expanded(m[k], str)
        else if k in MadeKeys(m, str) then MadeAt(m, k, str) else BLANK)
  }

  /** A good loop makes exactly one section for each NAME that is not skipped. */
  lemma OneSectionPerName(base: string, s: Node, n: nat, sc: Scope)
    requires GoodLoop(base, s, sc) && n <= |NamesOf(s, sc.str)|
    ensures forall i :: 0 <= i < n && !Skipped(base, s, i, sc.str) ==>
      var k, made := SectionName(base, s, i, sc.str), Generated(base, s, n, sc.str);
      k in made && made[k] == Instance(s, i, sc.str)
    ensures forall k :: k in Generated(base, s, n, sc.str) ==> MadeFor(base, s, n, k, sc.str)
  {
    GeneratedExactly(base, s, n, sc.str);
    hide Instance, SectionName, Skipped, NamesOf, Generated, MadeFor;
  }

  lemma {:induction false} GeneratedExactly(base: string, s: Node, n: nat, str: Str)
    requires n <= |NamesOf(s, str)|
    requires forall i, j :: 0 <= i < j < |NamesOf(s, str)| ==>
      SectionName(base, s, i, str) != SectionName(base, s, j, str)
    ensures forall i :: 0 <= i < n && !Skipped(base, s, i, str) ==>
      var k, made := SectionName(base, s, i, str), Generated(base, s, n, str);
      k in made && made[k] == Instance(s, i, str)
    ensures forall k :: k in Generated(base, s, n, str) ==> MadeFor(base, s, n, k, str)
  {
    hide Instance, SectionName, Skipped, NamesOf;
    if n > 0 {
      GeneratedExactly(base, s, n - 1, str);
      forall k | k in Generated(base, s, n, str) ensures MadeFor(base, s, n, k, str) {
        if k in Generated(base, s, n - 1, str) { assert MadeFor(base, s, n - 1, k, str); }
      }
    }
  }

  ghost predicate MadeFor(base: string, s: Node, n: nat, k: string, str: Str)
    requires n <= |NamesOf(s, str)|
  {
    exists i :: 0 <= i < n && !Skipped(base, s, i, str) && k == SectionName(base, s, i, str)
  }

  lemma RunsAt(base: string, s: Node, i: nat, sc: Scope)
    requires GoodLoop(base, s, sc) && i < |NamesOf(s, sc.str)| && !Skipped(base, s, i, sc.str)
    ensures LongEnough(s, i, sc.str) && s.Section? && "FOR" !in ForEntries(s) && "NAME" in ForEntries(s)
      && NamesOf(s, sc.str)[i].Text? && RefsIn(NamesOf(s, sc.str)[i].tokens) == {}
  {
    hide NoFor, GoodCopy, LongEnough, NamesOf, SectionName, Skipped;
    assert RunnableAt(base, s, i, sc.str);
    NameHasNoRefs(base, s, i, sc.str);
  }

  lemma NameHasNoRefs(base: string, s: Node, i: nat, str: Str)
    requires i < |NamesOf(s, str)| && NamesOf(s, str)[i].Text? && !Skipped(base, s, i, str)
    ensures RefsIn(NamesOf(s, str)[i].tokens) == {}
  {
    var name := NamesOf(s, str)[i];
    if HasRef(name.tokens) {
      PercentSigns(name.tokens);
      UpperKeeps(Written(name.tokens));
    }
  }

  lemma {:induction false} UpperKeeps(s: string)
    requires '%' in s
    ensures '%' in Upper(s)
  {
    if s[0] != '%' { UpperKeeps(s[1..]); }
  }

  /** The entries of an instance: the i-th elements, and the rest of the copy, expanded. */
  lemma InstanceEntries(base: string, s: Node, i: nat, k: string, sc: Scope)
    requires GoodLoop(base, s, sc) && i < |NamesOf(s, sc.str)| && !Skipped(base, s, i, sc.str)
    ensures LongEnough(s, i, sc.str) && s.Section?
    ensures var e, c := Instance(s, i, sc.str).entries, Copy(s, i, sc.str);
      && (k in e <==> k != "FOR" && (k in s.entries || k in ForEntries(s)))
      && (k in e ==>
          e[k] ==
            if k in ForEntries(s) then ListOf(ForEntries(s)[k], sc.str)[i] else Rewritten(s.entries[k], Leaves(c)))
  {
    hide *;
    RunsAt(base, s, i, sc);
    InstanceEntry(s, i, k, sc.str);
  }

  lemma InstanceEntry(s: Node, i: nat, k: string, str: Str)
    requires i < |NamesOf(s, str)| && NamesOf(s, str)[i].Text? && RefsIn(NamesOf(s, str)[i].tokens) == {}
    requires LongEnough(s, i, str) && s.Section? && "FOR" !in ForEntries(s) && "NAME" in ForEntries(s)
    ensures var e, c := Instance(s, i, str).entries, Copy(s, i, str);
      && (k in e <==> k != "FOR" && (k in s.entries || k in ForEntries(s)))
      && (k in e ==>
          e[k] == if k in ForEntries(s) then ListOf(ForEntries(s)[k], str)[i] else Rewritten(s.entries[k], Leaves(c)))
  {
    hide Values, Leaves, FullExpansion, ForEntries, ListOf;
    var st, name := Leaves(Copy(s, i, str)), NamesOf(s, str)[i];
    GroundExpands(st, name.tokens);
    assert Rewritten(name, st) == name;
    assert k in ForEntries(s) ==> ElementAt(s, k, i, str) == ListOf(ForEntries(s)[k], str)[i];
  }

  /** `%NAME%` in the body stands for the name, in every text and in every element of a list. */
  lemma NameIsFilledIn(base: string, s: Node, i: nat, before: Tokens, after: Tokens, sc: Scope)
    requires GoodLoop(base, s, sc) && i < |NamesOf(s, sc.str)| && !Skipped(base, s, i, sc.str)
    requires NamesOf(s, sc.str)[i] != BLANK
    ensures NamesOf(s, sc.str)[i].Text?
    ensures var st := Leaves(Copy(s, i, sc.str));
      FullExpansion(st, before + [Ref(["NAME"])] + after)
        == FullExpansion(st, before) + NamesOf(s, sc.str)[i].tokens + FullExpansion(st, after)
  {
    assert GoodCopy(Copy(s, i, sc.str), sc);
    hide GoodLoop, Values, Skipped, Leaves, FullExpansion, NoFor, RefGraph, NamesLeaf, LeadsToText, LeadsNowhere,
      Unshifted, RefsAmong, OwnVariables;
    RunsAt(base, s, i, sc);
    NameInTexts(s, i, sc.str);
    FilledIn(Leaves(Copy(s, i, sc.str)), NamesOf(s, sc.str)[i].tokens, before, after);
  }

  lemma NameInTexts(s: Node, i: nat, str: Str)
    requires i < |NamesOf(s, str)| && NamesOf(s, str)[i].Text?
    ensures ["NAME"] in Leaves(Copy(s, i, str)) && Leaves(Copy(s, i, str))[["NAME"]] == NamesOf(s, str)[i].tokens
  {
    var c, p: Path := Copy(s, i, str), ["NAME"];
    assert p == ["NAME"] + [] && c.entries["NAME"] == NamesOf(s, str)[i];
    LeafAtUnder(c, "NAME", []);
    LeavesExactly(c, p);
  }

  lemma FilledIn(st: Store, name: Tokens, before: Tokens, after: Tokens)
    requires Acyclic(RefGraph(st)) && RefsIn(name) == {} && name != [] && ["NAME"] in st && st[["NAME"]] == name
    ensures FullExpansion(st, before + [Ref(["NAME"])] + after)
      == FullExpansion(st, before) + name + FullExpansion(st, after)
  {
    hide FullExpansion, RefGraph;
    var ref: Tokens := [Ref(["NAME"])];
    GroundExpands(st, name);
    FullExpansionUnfolds(st, ["NAME"]);
    FullExpansionConcat(st, before + ref, after);
    FullExpansionConcat(st, before, ref);
  }

  /** No text has a placeholder, and no element of a list. */
  ghost predicate Unmarked(t: Node) {
    if t.Section? then forall k :: k in t.entries ==> Unmarked(t.entries[k]) else !Marked(t)
  }

  /** Entries of the body without placeholders are carried over as they are. */
  lemma {:induction false} GroundStays(t: Node, s: Store)
    requires Unmarked(t)
    ensures Rewritten(t, s) == t
  {
    match t
    case Text(tokens) => GroundExpands(s, tokens);
    case Items(items) =>
      forall i | 0 <= i < |items| ensures RewrittenItem(items[i], s) == items[i] {
        assert !Marked(items[i]);
        if items[i].Text? { GroundExpands(s, items[i].tokens); }
      }
    case Section(entries) =>
      forall k | k in entries ensures Rewritten(entries[k], s) == entries[k] { GroundStays(entries[k], s); }
      assert (map k | k in entries :: Rewritten(entries[k], s)) == entries;
  }

  /** What a loop makes holds no loop itself. */
  ghost predicate Inert(made: map<string, Node>) {
    forall k :: k in made ==> k != "FOR" && NoFor(made[k])
  }

  lemma MadeIsInert(base: string, s: Node, sc: Scope)
    requires GoodLoop(base, s, sc)
    ensures Inert(Made(base, s, sc.str))
  {
    hide GoodLoop, Instance, NamesOf, Skipped, SectionName, NoFor, Generated;
    var n := |NamesOf(s, sc.str)|;
    OneSectionPerName(base, s, n, sc);
    LoopIsLoop(base, s, sc);
    forall k | k in Made(base, s, sc.str) ensures k != "FOR" && NoFor(Made(base, s, sc.str)[k]) {
      assert MadeFor(base, s, n, k, sc.str);
      var i :| 0 <= i < n && !Skipped(base, s, i, sc.str) && k == SectionName(base, s, i, sc.str);
      NameIsNotFor(base, s, i, sc.str);
      InstanceHasNoFor(base, s, i, sc);
    }
  }

  lemma LoopIsLoop(base: string, s: Node, sc: Scope)
    requires GoodLoop(base, s, sc)
    ensures IsLoop(s)
  {}

  lemma NameIsNotFor(base: string, s: Node, i: nat, str: Str)
    requires i < |NamesOf(s, str)|
    ensures SectionName(base, s, i, str) != "FOR"
  {
    assert SectionName(base, s, i, str)[|base|] == '_';
  }

  lemma {:induction false} RewrittenNoFor(t: Node, s: Store)
    requires NoFor(t)
    ensures NoFor(Rewritten(t, s))
  {
    if t.Section? {
      forall k | k in t.entries ensures NoFor(Rewritten(t.entries[k], s)) { RewrittenNoFor(t.entries[k], s); }
    }
  }

  lemma InstanceHasNoFor(base: string, s: Node, i: nat, sc: Scope)
    requires GoodLoop(base, s, sc) && i < |NamesOf(s, sc.str)| && !Skipped(base, s, i, sc.str)
    ensures NoFor(Instance(s, i, sc.str))
  {
    var c := Copy(s, i, sc.str);
    assert GoodCopy(c, sc);
    RewrittenNoFor(c, Leaves(c));
    var e := Instance(s, i, sc.str).entries;
    forall l | l in e ensures l != "FOR" && NoFor(e[l]) {
      if l in ElementsAt(s, i, sc.str) { assert e[l] == ElementAt(s, l, i, sc.str); }
    }
  }

  lemma {:induction false} NoForStays(t: Node, sc: Scope)
    requires NoFor(t)
    ensures !IsLoop(t) && LoopPaths(t) == {} && WellFormed(t, sc) && Expanded(t, sc.str) == t
  {
    if t.Section? {
      forall k | k in t.entries
        ensures !IsLoop(t.entries[k]) && LoopPaths(t.entries[k]) == {}
        ensures WellFormed(t.entries[k], sc) && Expanded(t.entries[k], sc.str) == t.entries[k]
      {
        NoForStays(t.entries[k], sc);
      }
      assert MadeKeys(t.entries, sc.str) == {};
      assert Expanded(t, sc.str).entries == t.entries;
    }
  }

  lemma MadeAtIs(m: map<string, Node>, b: string, k: string, str: Str)
    requires NamesApart(m, str) && b in m && k in Made(b, m[b], str)
    ensures k in MadeKeys(m, str) && MadeAt(m, k, str) == Made(b, m[b], str)[k] && k !in m
  {}

  // ---------------------------------------------------------------- one loop at a time

  /** What expanding one loop keeps. */
  ghost predicate KeepsExpansion(t: Node, p: Path, t': Node, sc: Scope) {
    && t.Section? && t'.Section? && WellFormed(t', sc) && LoopPaths(t') == LoopPaths(t) - {p}
    && Expanded(t', sc.str) == Expanded(t, sc.str) && (!IsLoop(t) ==> !IsLoop(t'))
  }

  lemma {:induction false} ExpandAtKeepsExpansion(t: Node, p: Path, sc: Scope)
    requires WellFormed(t, sc) && p in LoopPaths(t)
    ensures ExpandAt(t, p, sc.str).Some? && KeepsExpansion(t, p, ExpandAt(t, p, sc.str).value, sc)
    decreases |p|
  {
    LoopPathHead(t, p, sc);
    if |p| == 1 {
      ExpandHere(t, p[0], sc);
    } else {
      ExpandAtKeepsExpansion(t.entries[p[0]], p[1..], sc);
      ExpandBelow(t, p[0], p[1..], ExpandAt(t.entries[p[0]], p[1..], sc.str).value, sc);
    }
  }

  lemma LoopPathHead(t: Node, p: Path, sc: Scope)
    requires WellFormed(t, sc) && p in LoopPaths(t)
    ensures t.Section? && p != [] && p[0] in t.entries && p == [p[0]] + p[1..]
    ensures if |p| == 1 then IsLoop(t.entries[p[0]])
            else !IsLoop(t.entries[p[0]]) && p[1..] in LoopPaths(t.entries[p[0]]) && WellFormed(t.entries[p[0]], sc)
  {
    var k, q :| k in t.entries && q in LoopPathsAt(t.entries, k) && p == [k] + q;
    assert p[1..] == q;
    if q == [] { LoopPathsNotEmpty(t.entries[k]); }
  }

  lemma LoopPathsNotEmpty(t: Node)
    ensures [] !in LoopPaths(t)
  {}

  lemma ExpandHere(t: Node, b: string, sc: Scope)
    requires t.Section? && WellFormed(t, sc) && b in t.entries && IsLoop(t.entries[b])
    ensures KeepsExpansion(t, [b], Section((t.entries - {b}) + Made(b, t.entries[b], sc.str)), sc)
  {
    var m := t.entries;
    var made := Made(b, m[b], sc.str);
    var m' := (m - {b}) + made;
    MadeIsInert(b, m[b], sc);
    forall k | k in made
      ensures k !in m && !IsLoop(made[k]) && LoopPaths(made[k]) == {}
      ensures WellFormed(made[k], sc) && Expanded(made[k], sc.str) == made[k]
    {
      NoForStays(made[k], sc);
    }
    HereMade(m, b, m', sc.str);
    assert b !in m';
    HereLoopPaths(m, b, m', sc.str);
    HereExpanded(m, b, m', sc.str);
  }

  /** `m'` is `m` with the loop `b` replaced by the inert sections it makes. */
  ghost predicate Here(m: map<string, Node>, b: string, m': map<string, Node>, str: Str) {
    && b in m && IsLoop(m[b]) && m' == (m - {b}) + Made(b, m[b], str)
    && forall k :: k in Made(b, m[b], str) ==>
      k !in m && !IsLoop(m'[k]) && LoopPaths(m'[k]) == {} && Expanded(m'[k], str) == m'[k]
  }

  lemma HereMade(m: map<string, Node>, b: string, m': map<string, Node>, str: Str)
    requires Here(m, b, m', str) && NamesApart(m, str)
    ensures forall c :: c in m' ==> Made(c, m'[c], str) == if c in m then Made(c, m[c], str) else map[]
    ensures NamesApart(m', str)
  {
    hide Expanded, LoopPaths, Generated, NamesOf;
    assert forall c :: c in m' && c !in m ==> c in Made(b, m[b], str);
  }

  lemma HereLoopPaths(m: map<string, Node>, b: string, m': map<string, Node>, str: Str)
    requires Here(m, b, m', str) && b !in m'
    ensures LoopPaths(Section(m')) == LoopPaths(Section(m)) - {[b]}
  {
    assert LoopPathsAt(m, b) - {[]} == {};
    LoopPathsMinus(m, m', b, []);
    assert [b] + [] == [b];
  }

  lemma LoopPathsMinus(m: map<string, Node>, m': map<string, Node>, b: string, q: Path)
    requires forall k :: LoopPathsAt(m', k) == if k == b then LoopPathsAt(m, k) - {q} else LoopPathsAt(m, k)
    ensures LoopPaths(Section(m')) == LoopPaths(Section(m)) - {[b] + q}
  {
    hide LoopPaths, LoopPathsAt;
    LoopPathsByKey(m);
    LoopPathsByKey(m');
    assert ([b] + q)[1..] == q;
    forall p: Path ensures p in LoopPaths(Section(m')) <==> p in LoopPaths(Section(m)) && p != [b] + q {
      if p != [] { assert p == [p[0]] + p[1..]; }
    }
  }

  lemma LoopPathsByKey(m: map<string, Node>)
    ensures forall p: Path :: p in LoopPaths(Section(m)) <==> p != [] && p[1..] in LoopPathsAt(m, p[0])
  {
    forall p: Path ensures p in LoopPaths(Section(m)) <==> p != [] && p[1..] in LoopPathsAt(m, p[0]) {
      if p != [] {
        assert p == [p[0]] + p[1..];
        if p in LoopPaths(Section(m)) {
          var k, q :| k in m && q in LoopPathsAt(m, k) && p == [k] + q;
          assert q == p[1..];
        }
      }
    }
  }

  /** The entry of the expanded section under one key. */
  ghost function EntryAt(m: map<string, Node>, k: string, str: Str): Option<Node> {
    if k in m && !IsLoop(m[k]) then Some(Expanded(m[k], str))
    else if k in MadeKeys(m, str) then Some(MadeAt(m, k, str))
    else None
  }

  lemma SameEntries(m: map<string, Node>, m': map<string, Node>, str: Str)
    requires forall k :: EntryAt(m', k, str) == EntryAt(m, k, str)
    ensures Expanded(Section(m'), str) == Expanded(Section(m), str)
  {
    ExpandedByKey(m, str);
    ExpandedByKey(m', str);
    hide *;
    var e, e' := Expanded(Section(m), str).entries, Expanded(Section(m'), str).entries;
    assert forall k :: k in e <==> k in e';
    assert forall k :: k in e ==> e[k] == e'[k];
    assert e == e';
  }

  lemma ExpandedByKey(m: map<string, Node>, str: Str)
    ensures var e := Expanded(Section(m), str);
      && e.Section?
      && (forall k :: k in e.entries <==> EntryAt(m, k, str).Some?)
      && (forall k :: k in e.entries ==> EntryAt(m, k, str) == Some(e.entries[k]))
  {
    hide MadeKeys, MadeAt, IsLoop;
  }

  lemma HereExpanded(m: map<string, Node>, b: string, m': map<string, Node>, str: Str)
    requires Here(m, b, m', str) && NamesApart(m, str) && b !in m'
    ensures Expanded(Section(m'), str) == Expanded(Section(m), str)
  {
    HereMade(m, b, m', str);
    forall k ensures EntryAt(m', k, str) == EntryAt(m, k, str) {
      HereEntry(m, b, m', k, str);
    }
    SameEntries(m, m', str);
  }

  lemma HereEntry(m: map<string, Node>, b: string, m': map<string, Node>, k: string, str: Str)
    requires Here(m, b, m', str) && NamesApart(m, str) && NamesApart(m', str) && b !in m'
    requires forall c :: c in m' ==> Made(c, m'[c], str) == if c in m then Made(c, m[c], str) else map[]
    ensures EntryAt(m', k, str) == EntryAt(m, k, str)
  {
    hide Made, Expanded, LoopPaths, MadeAt, IsLoop;
    if k in MadeKeys(m, str) {
      var c :| c in m && k in Made(c, m[c], str);
      MadeAtIs(m, c, k, str);
      if c != b { MadeAtIs(m', c, k, str); }
    }
  }

  lemma ExpandBelow(t: Node, b: string, q: Path, child: Node, sc: Scope)
    requires t.Section? && WellFormed(t, sc) && b in t.entries && !IsLoop(t.entries[b])
    requires KeepsExpansion(t.entries[b], q, child, sc)
    ensures KeepsExpansion(t, [b] + q, Section(t.entries[b := child]), sc)
  {
    hide Expanded, LoopPaths, LoopPathsAt, Made, GoodLoop, NamesApart;
    var m := t.entries;
    var m' := m[b := child];
    BelowMade(m, b, child, sc.str);
    BelowPathsAt(m, b, q, child);
    assert t == Section(m);
    LoopPathsMinus(m, m', b, q);
    BelowExpanded(m, m', sc.str);
    BelowWellFormed(t, b, child, sc);
  }

  lemma BelowMade(m: map<string, Node>, b: string, child: Node, str: Str)
    requires b in m && !IsLoop(m[b]) && !IsLoop(child)
    ensures forall k :: k in m ==>
      var n := m[b := child][k]; Made(k, n, str) == Made(k, m[k], str) && IsLoop(n) == IsLoop(m[k])
  {
    hide Generated;
  }

  lemma BelowPathsAt(m: map<string, Node>, b: string, q: Path, child: Node)
    requires b in m && !IsLoop(m[b]) && !IsLoop(child) && LoopPaths(child) == LoopPaths(m[b]) - {q}
    ensures forall k :: LoopPathsAt(m[b := child], k) == if k == b then LoopPathsAt(m, k) - {q} else LoopPathsAt(m, k)
  {
    hide LoopPaths, IsLoop;
  }

  lemma BelowWellFormed(t: Node, b: string, child: Node, sc: Scope)
    requires t.Section? && WellFormed(t, sc) && b in t.entries && !IsLoop(t.entries[b]) && !IsLoop(child)
    requires WellFormed(child, sc) && NamesApart(t.entries[b := child], sc.str)
    ensures WellFormed(Section(t.entries[b := child]), sc)
  {
    hide IsLoop, GoodLoop, NamesApart;
  }

  lemma BelowExpanded(m: map<string, Node>, m': map<string, Node>, str: Str)
    requires m.Keys == m'.Keys && NamesApart(m, str)
    requires forall k :: k in m ==> Made(k, m'[k], str) == Made(k, m[k], str) && IsLoop(m'[k]) == IsLoop(m[k])
    requires forall k :: k in m ==> Expanded(m'[k], str) == Expanded(m[k], str)
    ensures NamesApart(m', str) && Expanded(Section(m'), str) == Expanded(Section(m), str)
  {
    hide Made, Expanded, IsLoop, MadeAt;
    forall k ensures EntryAt(m', k, str) == EntryAt(m, k, str) {
      if k in MadeKeys(m, str) || k in MadeKeys(m', str) {
        var c :| c in m && k in Made(c, m[c], str);
        MadeAtIs(m, c, k, str);
        MadeAtIs(m', c, k, str);
      }
    }
    SameEntries(m, m', str);
  }

  // ---------------------------------------------------------------- every order

  ghost predicate Enumerates(order: seq<Path>, paths: set<Path>) {
    if order == [] then paths == {}
    else order[0] in paths && Enumerates(order[1..], paths - {order[0]})
  }

  lemma NoPathsBelow(t: Node, k: string)
    requires t.Section? && LoopPaths(t) == {} && k in t.entries
    ensures !IsLoop(t.entries[k]) && LoopPaths(t.entries[k]) == {}
  {
    LoopPathsByKey(t.entries);
    forall q: Path ensures q !in LoopPathsAt(t.entries, k) {
      assert ([k] + q)[1..] == q && [k] + q !in LoopPaths(t);
    }
    assert LoopPathsAt(t.entries, k) == {};
  }

  lemma {:induction false} NoLoopsLeft(t: Node, sc: Scope)
    requires WellFormed(t, sc) && LoopPaths(t) == {}
    ensures Expanded(t, sc.str) == t
  {
    if t.Section? {
      forall k | k in t.entries ensures !IsLoop(t.entries[k]) && Expanded(t.entries[k], sc.str) == t.entries[k] {
        NoPathsBelow(t, k);
        NoLoopsLeft(t.entries[k], sc);
      }
      assert MadeKeys(t.entries, sc.str) == {};
      assert Expanded(t, sc.str).entries == t.entries;
    }
  }

  /** Whatever the order of the loops, the result is the one expanded configuration. */
  lemma {:induction false} EveryOrderExpandsTheSame(t: Node, order: seq<Path>, sc: Scope)
    requires WellFormed(t, sc) && Enumerates(order, LoopPaths(t))
    ensures ExpandInOrder(t, order, sc.str) == Some(Expanded(t, sc.str))
    decreases |order|
  {
    if order == [] {
      NoLoopsLeft(t, sc);
    } else {
      ExpandAtKeepsExpansion(t, order[0], sc);
      EveryOrderExpandsTheSame(ExpandAt(t, order[0], sc.str).value, order[1..], sc);
    }
  }

  /** No FOR remains. */
  lemma {:induction false} ExpandedHasNoFor(t: Node, sc: Scope)
    requires WellFormed(t, sc) && !IsLoop(t)
    ensures NoFor(Expanded(t, sc.str))
  {
    if t.Section? {
      var m, e := t.entries, Expanded(t, sc.str).entries;
      forall k | k in e ensures k != "FOR" && NoFor(e[k]) {
        if k in MadeKeys(m, sc.str) {
          var b :| b in m && k in Made(b, m[b], sc.str);
          MadeAtIs(m, b, k, sc.str);
          MadeIsInert(b, m[b], sc);
        } else {
          ExpandedHasNoFor(m[k], sc);
        }
      }
    }
  }

  // ---------------------------------------------------------------- the names of the sections

  /** `key` is `base`, an underscore and `name` with its small letters made large. */
  predicate IsNameOf(key: string, base: string, name: string) {
    && |key| == |base| + 1 + |name| && key[..|base|] == base && key[|base|] == '_'
    && forall i :: 0 <= i < |name| ==>
      key[|base| + 1 + i] == if 'a' <= name[i] <= 'z' then 'A' + (name[i] - 'a') else name[i]
  }

  lemma {:induction false} UpperExactly(s: string)
    ensures |Upper(s)| == |s|
    ensures forall i :: 0 <= i < |s| ==> Upper(s)[i] == if 'a' <= s[i] <= 'z' then 'A' + (s[i] - 'a') else s[i]
  {
    if s != "" { UpperExactly(s[1..]); }
  }

  lemma NameIsExactly(base: string, name: string, key: string)
    ensures base + "_" + Upper(name) == key <==> IsNameOf(key, base, name)
    ensures '%' !in base ==> ('%' in base + "_" + Upper(name) <==> '%' in name)
  {
    UpperExactly(name);
    hide Upper;
    var made := base + "_" + Upper(name);
    if IsNameOf(key, base, name) {
      forall n | 0 <= n < |key| ensures key[n] == made[n] {
        if n < |base| { assert key[..|base|][n] == base[n]; }
        if n > |base| { assert key[|base| + 1 + (n - |base| - 1)] == made[n]; }
      }
    }
    if n :| 0 <= n < |made| && made[n] == '%' && n > |base| { assert name[n - |base| - 1] == '%'; }
    if i :| 0 <= i < |name| && name[i] == '%' { assert made[|base| + 1 + i] == '%'; }
  }

  /** The i-th NAME makes the section `key`. */
  predicate NamesTheSection(s: Node, base: string, i: nat, key: string, str: Str) {
    && i < |NamesOf(s, str)| && NamesOf(s, str)[i].Text?
    && '%' !in Written(NamesOf(s, str)[i].tokens) && IsNameOf(key, base, Written(NamesOf(s, str)[i].tokens))
  }

  lemma NamedSection(s: Node, base: string, i: nat, key: string, str: Str)
    requires i < |NamesOf(s, str)| && NamesOf(s, str)[i].Text? && '%' !in base
    ensures NamesTheSection(s, base, i, key, str)
      <==> !Skipped(base, s, i, str) && SectionName(base, s, i, str) == key
  {
    hide NamesOf, Upper, Written, IsNameOf;
    NameIsExactly(base, Written(NamesOf(s, str)[i].tokens), key);
  }

  /** The sections of a good loop have exactly the names made of the NAMEs without a percent sign. */
  lemma SectionNamesExactly(base: string, s: Node, key: string, sc: Scope)
    requires GoodLoop(base, s, sc) && '%' !in base
    ensures forall i :: 0 <= i < |NamesOf(s, sc.str)| ==> NamesOf(s, sc.str)[i].Text?
    ensures key in Made(base, s, sc.str) <==> exists i :: NamesTheSection(s, base, i, key, sc.str)
  {
    hide GoodLoop, NamesOf, SectionName, Skipped, NamesTheSection, Instance, Generated;
    var names := NamesOf(s, sc.str);
    OneSectionPerName(base, s, |names|, sc);
    LoopIsLoop(base, s, sc);
    forall i: nat
      ensures i < |names| ==> names[i].Text?
      ensures NamesTheSection(s, base, i, key, sc.str)
        <==> i < |names| && !Skipped(base, s, i, sc.str) && SectionName(base, s, i, sc.str) == key
    {
      if i < |names| {
        TextNames(base, s, i, sc);
        NamedSection(s, base, i, key, sc.str);
      } else {
        NoSuchName(s, base, i, key, sc.str);
      }
    }
    if key in Made(base, s, sc.str) { assert MadeFor(base, s, |names|, key, sc.str); }
  }

  lemma NoSuchName(s: Node, base: string, i: nat, key: string, str: Str)
    requires i >= |NamesOf(s, str)|
    ensures !NamesTheSection(s, base, i, key, str)
  {}

  lemma TextNames(base: string, s: Node, i: nat, sc: Scope)
    requires GoodLoop(base, s, sc) && i < |NamesOf(s, sc.str)|
    ensures NamesOf(s, sc.str)[i].Text?
  {
    assert RunnableAt(base, s, i, sc.str);
  }

  /** The same letter, but for the case. */
  predicate SameLetter(a: char, b: char) {
    a == b || ('a' <= a <= 'z' && b == 'A' + (a - 'a')) || ('a' <= b <= 'z' && a == 'A' + (b - 'a'))
  }

  /** Two NAMEs make the same section exactly when they differ in case at most. */
  lemma SameNameIff(base: string, a: string, b: string)
    ensures (exists key :: IsNameOf(key, base, a) && IsNameOf(key, base, b))
      <==> |a| == |b| && forall i :: 0 <= i < |a| ==> SameLetter(a[i], b[i])
  {
    var key := base + ['_'] + Upper(a);
    UpperExactly(a);
    assert IsNameOf(key, base, a);
    if k :| IsNameOf(k, base, a) && IsNameOf(k, base, b) {
      forall i | 0 <= i < |a| ensures SameLetter(a[i], b[i]) { assert k[|base| + 1 + i] == k[|base| + 1 + i]; }
    }
    if |a| == |b| && forall i :: 0 <= i < |a| ==> SameLetter(a[i], b[i]) {
      forall i | 0 <= i < |b| ensures key[|base| + 1 + i] == if 'a' <= b[i] <= 'z' then 'A' + (b[i] - 'a') else b[i] {
        assert SameLetter(a[i], b[i]);
      }
    }
  }

  /** The keys of an expanded mapping: those that are no loops, and the names made by the loops. */
  lemma ExpandedKeysExactly(m: map<string, Node>, key: string, sc: Scope)
    requires WellFormed(Section(m), sc) && forall b :: b in m ==> '%' !in b
    ensures Expanded(Section(m), sc.str).Section?
    ensures key in Expanded(Section(m), sc.str).entries <==>
      || (key in m && !(m[key].Section? && "FOR" in m[key].entries))
      || exists b, i :: b in m && m[b].Section? && "FOR" in m[b].entries && NamesTheSection(m[b], b, i, key, sc.str)
  {
    hide Expanded, Made, NamesTheSection, GoodLoop, NamesApart;
    ExpandedByKey(m, sc.str);
    forall b | b in m
      ensures key in Made(b, m[b], sc.str) <==> IsLoop(m[b]) && exists i :: NamesTheSection(m[b], b, i, key, sc.str)
    {
      if IsLoop(m[b]) {
        SectionNamesExactly(b, m[b], key, sc);
      } else {
        NothingMade(b, m[b], sc.str);
      }
    }
  }

  lemma NothingMade(b: string, s: Node, str: Str)
    requires !IsLoop(s)
    ensures Made(b, s, str) == map[]
  {}
}

/** The expansion of the recorded loops (`parse_data_loops`), with the variables that it reads
    from every copy and substitutes in it. */
module LoopExpansion {
  import opened Options
  import opened ConfigTree
  import opened Flatten
  import opened Digraph
  import opened Placeholders
  import opened Expansion
  import opened Substitution
  import opened Rewriting
  import opened FullSubstitution
  import opened ForValues
  import opened ForLoops
  import opened LoopReading

  /** What the expansion is given: the default parameters, how lists are written, and the order in
      which the variables are visited for the i-th NAME of a loop. No two substitutions are made for
      the same loop and the same NAME, so that order may depend on all that went before. */
  datatype Setting = Setting(defaults: set<string>, str: Str, visit: (Path, nat, Variables) -> seq<Path>)

  ghost predicate Visits(e: Setting) { forall p: Path, i: nat, dv: Variables :: Lists(e.visit(p, i, dv), dv) }

  // ---------------------------------------------------------------- what the code computes

  /** Reading the copy for the i-th NAME and substituting in it; None stands for an exception. */
  ghost function Substituted(c: Node, i: nat, dv: Variables, loop: Path, e: Setting)
    : Option<(Node, Variables)>
    requires Visits(e)
  {
    if !Readable(c, e.str) then None
    else
      var read := ReadTree(c, e.str);
      var dv1 := dv + VariablesOf([], read);
      Substitute(read, dv1, e.visit(loop, i, dv1), e.defaults)
  }

  /** The section made for the i-th NAME, and the variables from then on; None stands for an
      exception. */
  ghost function InstanceIn(s: Node, i: nat, dv: Variables, loop: Path, e: Setting): Option<(Node, Variables)>
    requires Visits(e)
  {
    if !LongEnough(s, i, e.str) then None
    else
      match Substituted(Copy(s, i, e.str), i, dv, loop, e)
      case None => None
      case Some((c, dv')) => Some((Section(Entries(c) + ElementsAt(s, i, e.str)), dv'))
  }

  /** The sections written for the first `n` NAMEs. */
  ghost function GeneratedIn(base: string, s: Node, n: nat, dv: Variables, loop: Path, e: Setting)
    : Option<(map<string, Node>, Variables)>
    requires n <= |NamesOf(s, e.str)| && Visits(e)
  {
    if n == 0 then Some((map[], dv))
    else
      match GeneratedIn(base, s, n - 1, dv, loop, e)
      case None => None
      case Some((before, dv1)) =>
        if !NamesOf(s, e.str)[n-1].Text? then None
        else if Skipped(base, s, n - 1, e.str) then Some((before, dv1))
        else
          match InstanceIn(s, n - 1, dv1, loop, e)
          case None => None
          case Some((made, dv2)) => Some((before[SectionName(base, s, n - 1, e.str) := made], dv2))
  }

  /** One iteration of `parse_data_loops`. */
  ghost function ExpandAtIn(t: Node, p: Path, dv: Variables, loop: Path, e: Setting): Option<(Node, Variables)>
    requires Visits(e)
    decreases |p|
  {
    if p == [] || !t.Section? || p[0] !in t.entries then None
    else if |p| == 1 then
      if !Legible(t.entries[p[0]], e.str) then None
      else
        match GeneratedIn(p[0], t.entries[p[0]], |NamesOf(t.entries[p[0]], e.str)|, dv, loop, e)
        case None => None
        case Some((made, dv')) => Some((Section((t.entries - {p[0]}) + made), dv'))
    else
      match ExpandAtIn(t.entries[p[0]], p[1..], dv, loop, e)
      case None => None
      case Some((child, dv')) => Some((Section(t.entries[p[0] := child]), dv'))
  }

  ghost function ExpandInOrderIn(t: Node, order: seq<Path>, dv: Variables, e: Setting): Option<(Node, Variables)>
    requires Visits(e)
    decreases |order|
  {
    if order == [] then Some((t, dv))
    else
      match ExpandAtIn(t, order[0], dv, order[0], e)
      case None => None
      case Some((next, dv')) => ExpandInOrderIn(next, order[1..], dv', e)
  }

  /** A result, if there is one, with the variables of the engine. */
  ghost predicate Gives<T>(r: Option<T>, dv: Variables, spec: Option<(T, Variables)>) {
    match spec
    case None => r == None
    case Some((value, dv')) => r == Some(value) && dv == dv'
  }

  // ---------------------------------------------------------------- the methods

  /** Puts the i-th element of every list into the section; None stands for the IndexError of a
      short list. */
  method PutElements(s: Node, i: nat, section: map<string, Node>, str: Str) returns (r: Option<map<string, Node>>)
    requires "NAME" in ForEntries(s) && i < |NamesOf(s, str)|
    ensures r.Some? <==> LongEnough(s, i, str)
    ensures r.Some? ==> r.value == section + ElementsAt(s, i, str)
  {
    hide ListOf, ForEntries;
    var lists, aux := ForEntries(s), section;
    var todo := lists.Keys - {"NAME"};
    ghost var put: map<string, Node> := map[];
    while todo != {}
      invariant todo <= lists.Keys - {"NAME"}
      invariant forall k :: k in lists && k !in todo ==> i < |ListOf(lists[k], str)|
      invariant put.Keys == lists.Keys - {"NAME"} - todo && aux == section + put
      invariant forall k :: k in put ==> i < |ListOf(lists[k], str)| && put[k] == ListOf(lists[k], str)[i]
    {
      var key :| key in todo;
      if i >= |ListOf(lists[key], str)| { return None; }
      aux, put := aux[key := ListOf(lists[key], str)[i]], put[key := ListOf(lists[key], str)[i]];
      todo := todo - {key};
    }
    ElementsPut(s, i, put, str);
    r := Some(aux);
  }

  lemma ElementsPut(s: Node, i: nat, put: map<string, Node>, str: Str)
    requires put.Keys == ForEntries(s).Keys - {"NAME"}
    requires forall k :: k in put ==> i < |ListOf(ForEntries(s)[k], str)| && put[k] == ListOf(ForEntries(s)[k], str)[i]
    ensures put == ElementsAt(s, i, str)
  {
    hide ListOf, ForEntries;
  }

  /** The copy for one NAME, read and substituted, with its elements. */
  method BuildInstance(engine: Engine, s: Node, i: nat, loop: Path, e: Setting) returns (r: Option<Node>)
    requires Visits(e) && Legible(s, e.str) && i < |NamesOf(s, e.str)|
    requires engine.defaults == e.defaults
    modifies engine
    ensures Gives(r, engine.dynamicVariables, InstanceIn(s, i, old(engine.dynamicVariables), loop, e))
  {
    hide ReadTree, Substitute, VariablesOf, LongEnough, ElementsAt, ListOf;
    var copy := Copy(s, i, e.str);
    var reading := ReadLoops(copy.entries, [], e.str);
    assert copy == Section(copy.entries);
    if reading.None? { return None; }
    var dv := engine.dynamicVariables + reading.value.variables;
    engine.dynamicVariables := dv;
    var substituted := engine.SubstituteDynamicVariables(Section(reading.value.data), e.visit(loop, i, dv));
    if substituted.None? { return None; }
    var section := PutElements(s, i, Entries(substituted.value), e.str);
    if section.None? { return None; }
    r := Some(Section(section.value));
  }

  /** The body of the main loop, on the mapping that holds the section. */
  method ExpandSection(engine: Engine, pointer: map<string, Node>, base: string, loop: Path, e: Setting)
    returns (r: Option<map<string, Node>>)
    requires base in pointer && Visits(e) && Legible(pointer[base], e.str)
    requires engine.defaults == e.defaults
    modifies engine
    ensures var s := pointer[base];
      match GeneratedIn(base, s, |NamesOf(s, e.str)|, old(engine.dynamicVariables), loop, e)
      case None => r == None
      case Some((made, dv)) => r == Some((pointer - {base}) + made) && engine.dynamicVariables == dv
  {
    hide InstanceIn, SectionName, Skipped, NamesOf, Legible;
    var s, data := pointer[base], pointer - {base};
    ghost var made: map<string, Node> := map[];
    var names, i := NamesOf(s, e.str), 0;
    while i < |names|
      invariant 0 <= i <= |names| && data == (pointer - {base}) + made
      invariant GeneratedIn(base, s, i, old(engine.dynamicVariables), loop, e) == Some((made, engine.dynamicVariables))
    {
      if !names[i].Text? {
        StaysNone(base, s, i + 1, old(engine.dynamicVariables), loop, e);
        return None;
      }
      if !Skipped(base, s, i, e.str) {
        var aux := BuildInstance(engine, s, i, loop, e);
        if aux.None? {
          StaysNone(base, s, i + 1, old(engine.dynamicVariables), loop, e);
          return None;
        }
        data := data[SectionName(base, s, i, e.str) := aux.value];
        made := made[SectionName(base, s, i, e.str) := aux.value];
      }
      i := i + 1;
    }
    r := Some(data);
  }

  lemma {:induction false} StaysNone(base: string, s: Node, n: nat, dv: Variables, loop: Path, e: Setting)
    requires n <= |NamesOf(s, e.str)| && Visits(e) && GeneratedIn(base, s, n, dv, loop, e) == None
    ensures GeneratedIn(base, s, |NamesOf(s, e.str)|, dv, loop, e) == None
    decreases |NamesOf(s, e.str)| - n
  {
    hide InstanceIn, SectionName, Skipped, NamesOf, Visits;
    if n < |NamesOf(s, e.str)| {
      StaysNone(base, s, n + 1, dv, loop, e);
    }
  }

  method ExpandLoopAt(engine: Engine, t: Node, loops: Path, loop: Path, e: Setting) returns (r: Option<Node>)
    requires Visits(e)
    requires engine.defaults == e.defaults
    modifies engine
    ensures Gives(r, engine.dynamicVariables, ExpandAtIn(t, loops, old(engine.dynamicVariables), loop, e))
    decreases |loops|
  {
    hide GeneratedIn, NamesOf;
    if loops == [] || !t.Section? || loops[0] !in t.entries { return None; }
    if |loops| == 1 {
      if !Legible(t.entries[loops[0]], e.str) { return None; }
      var expanded := ExpandSection(engine, t.entries, loops[0], loop, e);
      if expanded.None? { return None; }
      return Some(Section(expanded.value));
    }
    var child := ExpandLoopAt(engine, t.entries[loops[0]], loops[1..], loop, e);
    if child.None? { return None; }
    r := Some(Section(t.entries[loops[0] := child.value]));
  }

  /** `parse_data_loops`; `order` is the order in which `data_loops.pop()` yields the loops. */
  method ParseDataLoops(engine: Engine, experimentData: Node, order: seq<Path>, e: Setting) returns (r: Option<Node>)
    requires Visits(e)
    requires engine.defaults == e.defaults
    modifies engine
    ensures Gives(r, engine.dynamicVariables,
                  ExpandInOrderIn(experimentData, order, old(engine.dynamicVariables), e))
    ensures (exists sc :: GoodRun(experimentData, order, old(engine.dynamicVariables), sc, e)) ==>
      r == Some(Expanded(experimentData, e.str))
  {
    hide ExpandAtIn, GoodRun;
    forall sc | GoodRun(experimentData, order, engine.dynamicVariables, sc, e)
      ensures var r := ExpandInOrderIn(experimentData, order, engine.dynamicVariables, e);
        r.Some? && r.value.0 == Expanded(experimentData, e.str)
    {
      EveryRunExpandsTheSame(experimentData, order, engine.dynamicVariables, e, sc);
    }
    var data, i := experimentData, 0;
    while i < |order|
      invariant 0 <= i <= |order|
      invariant ExpandInOrderIn(experimentData, order, old(engine.dynamicVariables), e)
        == ExpandInOrderIn(data, order[i..], engine.dynamicVariables, e)
    {
      var next := ExpandLoopAt(engine, data, order[i], order[i], e);
      assert order[i..][1..] == order[i+1..];
      if next.None? { return None; }
      data := next.value;
      i := i + 1;
    }
    r := Some(data);
  }

  // ---------------------------------------------------------------- every run

  /** The registered variables, and their placeholders, are among those that occur. */
  ghost predicate Tame(dv: Variables, sc: Scope) {
    forall n :: n in dv ==> ValueAmong(dv[n], sc.refs) && (n in sc.lists || (n in sc.texts && dv[n].One?))
  }

  /** A configuration with its loops in some order, and the variables registered before. */
  ghost predicate GoodRun(t: Node, order: seq<Path>, dv: Variables, sc: Scope, e: Setting) {
    && WellFormed(t, sc) && Enumerates(order, LoopPaths(t)) && Tame(dv, sc)
    && sc.str == e.str && sc.defaults == e.defaults
  }

  /** In a good copy substitution ends with its full expansion, whatever else is registered, and
      registers nothing unexpected. */
  lemma CopyIsExpanded(c: Node, i: nat, dv: Variables, sc: Scope, loop: Path, e: Setting)
    requires GoodCopy(c, sc) && Tame(dv, sc) && Visits(e) && sc.str == e.str && sc.defaults == e.defaults
    ensures var r := Substituted(c, i, dv, loop, e);
      r.Some? && r.value.0 == Rewritten(c, Leaves(c)) && Tame(r.value.1, sc)
  {
    hide *;
    var dv1 := dv + OwnVariables(c);
    var order := e.visit(loop, i, dv1);
    CopySubstituted(c, i, dv, sc, loop, e);
    ListsAll(e, loop, i, dv1);
    CopyIsReady(c, dv, sc);
    SubstitutionKeeps(c, dv1, order, sc.defaults, sc.refs, sc.texts - sc.lists);
    StaysTame(dv1, Substitute(c, dv1, order, sc.defaults).value.1, sc);
  }

  lemma ListsAll(e: Setting, loop: Path, i: nat, dv: Variables)
    requires Visits(e)
    ensures Lists(e.visit(loop, i, dv), dv)
  {}

  lemma CopySubstituted(c: Node, i: nat, dv: Variables, sc: Scope, loop: Path, e: Setting)
    requires GoodCopy(c, sc) && Visits(e) && sc.str == e.str && sc.defaults == e.defaults
    ensures var dv1 := dv + OwnVariables(c);
      Lists(e.visit(loop, i, dv1), dv1)
      && Substituted(c, i, dv, loop, e) == Substitute(c, dv1, e.visit(loop, i, dv1), sc.defaults)
  {
    hide NoFor, RefsAmong, Acyclic, Unshifted, NamesLeaf, LeadsToText, LeadsNowhere, Substitute, OwnVariables, Lists,
      VariablesOf, Readable, ReadTree;
    CopyIsRead(c, e.str);
  }

  lemma StaysTame(dv: Variables, dv': Variables, sc: Scope)
    requires Tame(dv, sc) && dv'.Keys <= dv.Keys
    requires forall n :: n in dv' ==> ValueAmong(dv'[n], sc.refs) && (n in sc.texts - sc.lists ==> dv'[n].One?)
    ensures Tame(dv', sc)
  {
    hide ValueAmong;
  }

  /** Reading a good copy registers what substitution needs. */
  lemma CopyIsReady(c: Node, dv: Variables, sc: Scope)
    requires GoodCopy(c, sc) && Tame(dv, sc)
    ensures var dv1 := dv + OwnVariables(c);
      Ready(c, dv1, sc.defaults, sc.refs) && Tame(dv1, sc)
      && forall n :: n in dv1 && n in sc.texts - sc.lists ==> dv1[n].One?
  {
    var own := OwnVariables(c);
    var dv1 := dv + own;
    hide NoFor, RefsAmong, Acyclic, Unshifted, NamesLeaf, ValueAmong, Full, OwnVariables, LeadsToText, LeadsNowhere,
      Leaves;
    forall n | n in dv1
      ensures ValueAmong(dv1[n], sc.refs) && (n in sc.lists || (n in sc.texts && dv1[n].One?))
      ensures n !in own ==> Harmless(c, n, dv1[n])
    {
      if n in own { OwnAmong(c, n, sc.refs); } else { ForeignHarmless(c, n, dv1[n], sc); }
    }
  }

  lemma OwnAmong(c: Node, n: Path, refs: set<Path>)
    requires RefsAmong(c, refs) && n in OwnVariables(c) && Full(LeafOf(c, n))
    ensures ValueAmong(OwnVariables(c)[n], refs) && !OwnVariables(c)[n].Unhashable?
  {
    OwnExactly(c, n);
    ValueOfAmong(c, n, LeafOf(c, n), refs);
  }

  lemma ForeignHarmless(c: Node, n: Path, v: Value, sc: Scope)
    requires n !in OwnVariables(c) && (n in sc.lists || (n in sc.texts && v.One?))
    requires (n in sc.texts ==> LeadsToText(c, n)) && (n in sc.lists ==> LeadsNowhere(c, n))
    ensures Harmless(c, n, v)
  {
    OwnExactly(c, n);
    hide OwnVariables, ClearOfLeaves;
  }

  lemma CopyIsGood(base: string, s: Node, i: nat, sc: Scope)
    requires GoodLoop(base, s, sc) && i < |NamesOf(s, sc.str)| && !Skipped(base, s, i, sc.str)
    ensures GoodCopy(Copy(s, i, sc.str), sc)
  {
    hide GoodCopy, NamesOf, Skipped, Copy, NoFor, ElementAt, Runnable, SectionName;
  }

  lemma InstanceAgrees(base: string, s: Node, i: nat, dv: Variables, sc: Scope, loop: Path, e: Setting)
    requires GoodLoop(base, s, sc) && Tame(dv, sc) && Visits(e) && sc.str == e.str && sc.defaults == e.defaults
    requires i < |NamesOf(s, e.str)| && !Skipped(base, s, i, e.str)
    ensures NamesOf(s, e.str)[i].Text?
    ensures var r := InstanceIn(s, i, dv, loop, e); r.Some? && r.value.0 == Instance(s, i, e.str) && Tame(r.value.1, sc)
  {
    hide Substituted, Rewritten, Leaves, Tame, GoodCopy, GoodLoop, Copy, ElementsAt, NamesOf, Skipped, Visits,
      LongEnough, ForEntries;
    RunsAt(base, s, i, sc);
    CopyIsGood(base, s, i, sc);
    CopyIsExpanded(Copy(s, i, e.str), i, dv, sc, loop, e);
  }

  lemma {:induction false} GeneratedAgrees(base: string, s: Node, n: nat, dv: Variables, sc: Scope, loop: Path,
                                           e: Setting)
    requires GoodLoop(base, s, sc) && Tame(dv, sc) && Visits(e) && sc.str == e.str && sc.defaults == e.defaults
    requires n <= |NamesOf(s, e.str)|
    ensures var r := GeneratedIn(base, s, n, dv, loop, e);
      r.Some? && r.value.0 == Generated(base, s, n, e.str) && Tame(r.value.1, sc)
  {
    hide GoodLoop, Instance, InstanceIn, Tame, Skipped, SectionName, NamesOf, Visits;
    if n > 0 {
      NameIsText(base, s, n - 1, sc);
      GeneratedAgrees(base, s, n - 1, dv, sc, loop, e);
      if !Skipped(base, s, n - 1, e.str) {
        InstanceAgrees(base, s, n - 1, GeneratedIn(base, s, n - 1, dv, loop, e).value.1, sc, loop, e);
      }
    }
  }

  lemma NameIsText(base: string, s: Node, i: nat, sc: Scope)
    requires GoodLoop(base, s, sc) && i < |NamesOf(s, sc.str)|
    ensures NamesOf(s, sc.str)[i].Text?
  {
    assert RunnableAt(base, s, i, sc.str);
  }

  lemma {:induction false} StepAgrees(t: Node, p: Path, dv: Variables, sc: Scope, loop: Path, e: Setting)
    requires WellFormed(t, sc) && p in LoopPaths(t) && Tame(dv, sc) && Visits(e)
    requires sc.str == e.str && sc.defaults == e.defaults
    ensures var r := ExpandAtIn(t, p, dv, loop, e);
      r.Some? && Some(r.value.0) == ExpandAt(t, p, e.str) && Tame(r.value.1, sc)
    decreases |p|
  {
    LoopPathHead(t, p, sc);
    if |p| == 1 {
      var s := t.entries[p[0]];
      assert GoodLoop(p[0], s, sc) && Legible(s, sc.str) && Runnable(p[0], s, sc.str);
      hide GoodLoop, WellFormed, Runnable, Generated, GeneratedIn, Tame, NamesOf, Legible, Visits;
      GeneratedAgrees(p[0], s, |NamesOf(s, e.str)|, dv, sc, loop, e);
    } else {
      hide WellFormed, LoopPaths, Tame, Made, GeneratedIn, Visits;
      StepAgrees(t.entries[p[0]], p[1..], dv, sc, loop, e);
    }
  }

  /** Whatever the order of the loops, whatever variables are registered before, and in whatever
      orders they are visited, the result is the one expanded configuration. */
  lemma {:induction false} EveryRunExpandsTheSame(t: Node, order: seq<Path>, dv: Variables, e: Setting, sc: Scope)
    requires GoodRun(t, order, dv, sc, e) && Visits(e)
    ensures var r := ExpandInOrderIn(t, order, dv, e);
      r.Some? && r.value.0 == Expanded(t, e.str) && Tame(r.value.1, sc)
    decreases |order|
  {
    if order == [] {
      NoLoopsLeft(t, sc);
    } else {
      StepAgrees(t, order[0], dv, sc, order[0], e);
      ExpandAtKeepsExpansion(t, order[0], sc);
      hide ExpandAtIn, ExpandAt, WellFormed, Tame, LoopPaths, Visits;
      var r := ExpandAtIn(t, order[0], dv, order[0], e).value;
      EveryRunExpandsTheSame(r.0, order[1..], r.1, e, sc);
    }
  }
}

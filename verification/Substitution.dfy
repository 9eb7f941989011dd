/** Placeholder substitution: the values of dynamic variables, which are texts or lists of texts,
    are spliced into each other pass after pass until nothing changes, under a cap on the number
    of passes. */
module Substitution {
  import opened Options
  import opened ConfigTree
  import opened Flatten
  import opened Digraph
  import opened Placeholders
  import opened Expansion

  /** The value of a variable. Lists that hold anything but texts cannot be looked up among the
      default parameters, and raise an error. */
  datatype Value = One(text: Tokens) | Many(texts: seq<Tokens>) | Unhashable

  type Variables = map<Path, Value>

  // ---------------------------------------------------------------- what the code computes

  /** What a value is written as when it is spliced into a text. An empty list is falsy like an empty
      text. */
  function Shown(n: Node): Tokens {
    match n
    case Text(tokens) => tokens
    case Items(items) => if items == [] then [] else ListText(items)
    case Section(_) => []
  }

  /** `str` of a list, for texts without quotes, backslashes and unprintable characters. */
  function ListText(items: seq<Node>): Tokens
    decreases items, 1
  {
    [Lit("[")] + ItemsText(items) + [Lit("]")]
  }

  function ItemsText(items: seq<Node>): Tokens
    decreases items, 0
  {
    if items == [] then []
    else
      var n := |items| - 1;
      ItemsText(items[..n]) + (if n == 0 then [] else [Lit(", ")]) + ItemText(items[n])
  }

  function ItemText(n: Node): Tokens
    decreases n
  {
    match n
    case Text(tokens) => [Lit("'")] + tokens + [Lit("'")]
    case Items(items) => ListText(items)
    case Section(_) => [Lit("{}")]
  }

  /** Whether a placeholder shows in what the value is written as. */
  predicate Marked(n: Node) {
    match n
    case Text(tokens) => HasRef(tokens)
    case Items(items) => exists i :: 0 <= i < |items| && Marked(items[i])
    case Section(entries) => exists k :: k in entries && (HasRef(Tokenised(k)) || Marked(entries[k]))
  }

  /** The text a reference finds. A missing or empty value is falsy, and leaves the placeholder
      where it is. */
  function Found(t: Node, r: Path): Tokens {
    match At(t, r)
    case Some(n) => Shown(n)
    case None => []
  }

  /** The keys of a variable that are looked at: those that are no default parameters. */
  function KeysOf(v: Value, defaults: set<string>): seq<Tokens> {
    match v
    case One(text) => Wanted([text], defaults)
    case Many(texts) => Wanted(texts, defaults)
    case Unhashable => []
  }

  function Wanted(keys: seq<Tokens>, defaults: set<string>): seq<Tokens> {
    if keys == [] then []
    else (if Written(keys[0]) in defaults then [] else [keys[0]]) + Wanted(keys[1..], defaults)
  }

  /** The i-th element of a list in the tree, with `old[i]` replaced in it, where `old` is the former
      value of the variable. When that is a text, `old[i]` is its i-th character. */
  function ReplaceElement(elem: Tokens, was: Value, i: nat, now: Tokens): Tokens {
    match was
    case Many(texts) => if i < |texts| then ReplaceIn(elem, texts[i], Written(texts[i]), now) else elem
    case One(text) => if i < |Written(text)| then ReplaceIn(elem, [], [Written(text)[i]], now) else elem
    case Unhashable => elem
  }

  /** `replace`. A text that is replaced as a whole keeps its placeholders as they are cut. */
  function ReplaceIn(elem: Tokens, whole: Tokens, o: string, now: Tokens): Tokens {
    if whole != [] && elem == whole then now
    else
      var w := ReplaceAll(Written(elem), o, Written(now));
      if w == Written(elem) then elem else Tokenised(w)
  }

  /** `dict_replace_value`: walk down and replace the text met, if it is still the former one, or the
      i-th element of the list met. */
  function ReplaceAt(t: Node, p: Path, was: Value, i: nat, now: Tokens): Node
    decreases |p|
  {
    if p == [] || !t.Section? || p[0] !in t.entries then t
    else
      match t.entries[p[0]]
      case Section(_) => Section(t.entries[p[0] := ReplaceAt(t.entries[p[0]], p[1..], was, i, now)])
      case Text(tokens) => if was == One(tokens) then Section(t.entries[p[0] := Text(now)]) else t
      case Items(items) =>
        if i < |items| && items[i].Text?
        then Section(t.entries[p[0] := Items(items[i := Text(ReplaceElement(items[i].tokens, was, i, now))])])
        else t
  }

  /** What is at hand while the keys of one variable are gone through. */
  datatype Splicing = Splicing(tree: Node, value: Value, keys: seq<Tokens>)

  /** The splices for the placeholders of `key`, the i-th key, below position `m`, right to left. A
      variable with one key becomes a text. */
  function SpliceKey(s: Splicing, name: Path, i: nat, key: Tokens, m: nat): Splicing
    requires i < |s.keys| && m <= |key|
    ensures |SpliceKey(s, name, i, key, m).keys| == |s.keys|
    decreases m
  {
    if m == 0 then s
    else
      var found := if key[m-1].Ref? then Found(s.tree, key[m-1].path) else [];
      if found == [] then SpliceKey(s, name, i, key, m - 1)
      else
        var now := key[..m-1] + found + key[m..];
        SpliceKey(Replaced(s, name, i, now), name, i, now, m - 1)
  }

  function Replaced(s: Splicing, name: Path, i: nat, now: Tokens): Splicing
    requires i < |s.keys|
    ensures |Replaced(s, name, i, now).keys| == |s.keys|
  {
    var tree := ReplaceAt(s.tree, name, s.value, i, now);
    if |s.keys| > 1 then Splicing(tree, Many(s.keys[i := now]), s.keys[i := now])
    else Splicing(tree, One(now), s.keys)
  }

  /** The keys from `pos` on. Empty keys are not counted: the i-th of the others is spliced. */
  function SpliceKeys(s: Splicing, name: Path, pos: nat, i: nat): Splicing
    requires i <= pos <= |s.keys|
    decreases |s.keys| - pos
  {
    if pos == |s.keys| then s
    else if s.keys[pos] == [] then SpliceKeys(s, name, pos + 1, i)
    else SpliceKeys(SpliceKey(s, name, i, s.keys[pos], |s.keys[pos]|), name, pos + 1, i + 1)
  }

  function Visit(t: Node, name: Path, v: Value, defaults: set<string>): (Node, Value) {
    var s := SpliceKeys(Splicing(t, v, KeysOf(v, defaults)), name, 0, 0);
    (s.tree, s.value)
  }

  /** One pass over the dynamic variables `dv` in the given order. */
  function Pass(t: Node, dv: Variables, out: Variables, order: seq<Path>, defaults: set<string>): (Node, Variables)
    requires forall n :: n in order ==> n in dv
    decreases |order|
  {
    if order == [] then (t, out)
    else
      var (t', v) := Visit(t, order[0], dv[order[0]], defaults);
      Pass(t', dv, out[order[0] := v], order[1..], defaults)
  }

  /** `order` visits every dynamic variable once. */
  ghost predicate Lists(order: seq<Path>, dv: Variables) {
    Distinct(order) && forall n :: n in order <==> n in dv
  }

  lemma PassLists(t: Node, dv: Variables, order: seq<Path>, defaults: set<string>)
    requires Lists(order, dv)
    ensures var dv' := Pass(t, dv, dv, order, defaults).1; dv'.Keys == dv.Keys && Lists(order, dv')
  {
    PassKeys(t, dv, dv, order, defaults);
  }

  lemma {:induction false} PassKeys(t: Node, dv: Variables, out: Variables, order: seq<Path>, defaults: set<string>)
    requires forall n :: n in order ==> n in dv && n in out
    ensures Pass(t, dv, out, order, defaults).1.Keys == out.Keys
    decreases |order|
  {
    if order != [] {
      hide Visit;
      var (t', v) := Visit(t, order[0], dv[order[0]], defaults);
      PassKeys(t', dv, out[order[0] := v], order[1..], defaults);
    }
  }

  /** Passes until one changes no dynamic variable, at most `left` of them. */
  function Rounds(t: Node, dv: Variables, order: seq<Path>, left: nat, defaults: set<string>): (Node, Variables)
    requires Lists(order, dv)
    decreases left
  {
    if |dv| == 0 || left == 0 then (t, dv)
    else
      PassLists(t, dv, order, defaults);
      var (t', dv') := Pass(t, dv, dv, order, defaults);
      if dv' == dv then (t', dv) else Rounds(t', dv', order, left - 1, defaults)
  }

  /** `clean_dynamic_variables`: only texts with a placeholder are kept. */
  function Cleaned(dv: Variables): Variables {
    map n | n in dv && CleanValue(dv[n]).Some? :: CleanValue(dv[n]).value
  }

  function CleanValue(v: Value): Option<Value> {
    match v
    case One(text) => if HasRef(text) then Some(v) else None
    case Many(texts) => if WithRefs(texts) != [] then Some(Many(WithRefs(texts))) else None
    case Unhashable => None
  }

  function WithRefs(texts: seq<Tokens>): seq<Tokens> {
    if texts == [] then [] else (if HasRef(texts[0]) then [texts[0]] else []) + WithRefs(texts[1..])
  }

  const MAX_DEEP := 25

  /** All of `substitute_dynamic_variables`; None stands for the TypeError of an unhashable list. */
  function Substitute(t: Node, dv: Variables, order: seq<Path>, defaults: set<string>): Option<(Node, Variables)>
    requires Lists(order, dv)
  {
    if exists n :: n in dv && dv[n].Unhashable? then None
    else
      var (t', dv') := Rounds(t, dv, order, MAX_DEEP + |dv|, defaults);
      Some((t', Cleaned(dv')))
  }

  class Engine {
    const defaults: set<string>
    var dynamicVariables: Variables

    constructor (defaults: set<string>, dynamicVariables: Variables)
      ensures this.defaults == defaults && this.dynamicVariables == dynamicVariables
    {
      this.defaults, this.dynamicVariables := defaults, dynamicVariables;
    }

    /** The loop over the matches in one key. */
    method SubstituteMatches(s: Splicing, name: Path, i: nat, text: Tokens) returns (r: Splicing)
      requires i < |s.keys|
      ensures r == SpliceKey(s, name, i, text, |text|)
    {
      r := s;
      var key, m := text, |text|;
      while m > 0
        invariant 0 <= m <= |key| && |r.keys| == |s.keys|
        invariant SpliceKey(s, name, i, text, |text|) == SpliceKey(r, name, i, key, m)
      {
        m := m - 1;
        if key[m].Ref? {
          var found := Found(r.tree, key[m].path);
          if found != [] {
            key := key[..m] + found + key[m + 1..];
            r := Replaced(r, name, i, key);
          }
        }
      }
    }

    /** `_substitute_keys`, for the keys that `_get_keys` finds. */
    method SubstituteKeys(parameters: Node, name: Path, v: Value) returns (result: Node, value: Value)
      ensures (result, value) == Visit(parameters, name, v, defaults)
    {
      var s := Splicing(parameters, v, KeysOf(v, defaults));
      ghost var start := s;
      var pos, i := 0, 0;
      while pos < |s.keys|
        invariant i <= pos <= |s.keys| == |start.keys|
        invariant SpliceKeys(start, name, 0, 0) == SpliceKeys(s, name, pos, i)
      {
        if s.keys[pos] != [] {
          s := SubstituteMatches(s, name, i, s.keys[pos]);
          i := i + 1;
        }
        pos := pos + 1;
      }
      result, value := s.tree, s.value;
    }

    /** `_process_dynamic_variables`; `order` is the iteration order of the dictionary. */
    method ProcessDynamicVariables(parameters: Node, dv: Variables, order: seq<Path>)
      returns (result: Node, out: Variables)
      requires Lists(order, dv)
      ensures (result, out) == Pass(parameters, dv, dv, order, defaults)
    {
      hide Visit;
      result, out := parameters, dv;
      var i := 0;
      while i < |order|
        invariant 0 <= i <= |order| && forall n :: n in order[i..] ==> n in dv
        invariant Pass(parameters, dv, dv, order, defaults) == Pass(result, dv, out, order[i..], defaults)
      {
        var name := order[i];
        var value;
        assert order[i..][1..] == order[i+1..];
        result, value := SubstituteKeys(result, name, dv[name]);
        out := out[name := value];
        i := i + 1;
      }
    }

    /** The loop of `substitute_dynamic_variables`. */
    method RunPasses(parameters: Node, order: seq<Path>) returns (result: Node, dv: Variables)
      requires Lists(order, dynamicVariables)
      ensures (result, dv) == Rounds(parameters, dynamicVariables, order, MAX_DEEP + |dynamicVariables|, defaults)
    {
      hide Pass, Lists;
      var maxDeep: nat := MAX_DEEP + |dynamicVariables|;
      result, dv := parameters, dynamicVariables;
      while |dv| > 0 && maxDeep > 0
        invariant Lists(order, dv)
        invariant Rounds(parameters, dynamicVariables, order, MAX_DEEP + |dynamicVariables|, defaults)
          == Rounds(result, dv, order, maxDeep, defaults)
        decreases maxDeep
      {
        PassLists(result, dv, order, defaults);
        var next;
        result, next := ProcessDynamicVariables(result, dv, order);
        if next == dv { break; }
        dv := next;
        maxDeep := maxDeep - 1;
      }
    }

    /** `substitute_dynamic_variables`; None stands for an exception. */
    method SubstituteDynamicVariables(parameters: Node, order: seq<Path>) returns (result: Option<Node>)
      requires Lists(order, dynamicVariables)
      modifies this
      ensures match Substitute(parameters, old(dynamicVariables), order, defaults)
        case None => result == None
        case Some((t, dv)) => result == Some(t) && dynamicVariables == dv
    {
      hide Rounds, Lists, CleanValue;
      if exists n :: n in dynamicVariables && dynamicVariables[n].Unhashable? { return None; }
      var t, dv := RunPasses(parameters, order);
      dynamicVariables := Cleaned(dv);
      result := Some(t);
    }
  }
}

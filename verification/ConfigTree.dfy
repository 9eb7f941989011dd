/** Configuration data: a tree of mappings whose leaves are texts or lists, with the merge
    (`deep_update`), the fill-in of missing defaults, and the algebra that relates them. */
module ConfigTree {
  import opened Options

  /** A text is cut at its placeholders: `%A.B%` is the reference to the path [A, B]. */
  datatype Token = Lit(text: string) | Ref(path: Path)

  type Path = seq<string>

  datatype Node =
    | Text(tokens: seq<Token>)
    | Items(items: seq<Node>)
    | Section(entries: map<string, Node>)

  const BLANK := Text([])

  /** Anything that is not a mapping is read as the empty mapping. */
  function Entries(t: Node): map<string, Node> {
    if t.Section? then t.entries else map[]
  }

  function GetOr(m: map<string, Node>, key: string, default: Node): Node {
    if key in m then m[key] else default
  }

  // ---------------------------------------------------------------- merging

  /** `update` written over `base`: mappings are merged key by key, anything else replaces. */
  function Merge(base: Node, update: Node): (r: Node)
    requires update.Section?
    ensures r.Section? && r.entries.Keys == Entries(base).Keys + update.entries.Keys
    ensures forall k :: k in Entries(base) && k !in update.entries ==> r.entries[k] == Entries(base)[k]
    decreases update
  {
    var b := Entries(base);
    Section(map k | k in b.Keys + update.entries.Keys ::
      if k !in update.entries then b[k]
      else if update.entries[k].Section? then Merge(GetOr(b, k, BLANK), update.entries[k])
      else update.entries[k])
  }

  /** What one key of the update leaves in place of the old value. */
  function Overwritten(was: Node, val: Node): Node {
    if val.Section? then Merge(was, val) else val
  }

  /** `deep_update`: absent keys are first created blank, then every key is visited. */
  method DeepUpdate(unified: Node, newDict: map<string, Node>) returns (result: Node)
    ensures result == Merge(unified, Section(newDict))
    decreases Section(newDict)
  {
    ghost var base := Entries(unified);
    var u := WithMissingBlank(unified, newDict.Keys);
    var todo := newDict.Keys;
    while todo != {}
      invariant todo <= newDict.Keys
      invariant u.Keys == base.Keys + newDict.Keys
      invariant forall k :: k in u && (k !in newDict || k in todo) ==> u[k] == GetOr(base, k, BLANK)
      invariant forall k :: k in newDict && k !in todo ==> u[k] == Overwritten(GetOr(base, k, BLANK), newDict[k])
    {
      var key :| key in todo;
      var val := newDict[key];
      if val.Section? {
        assert val < Section(newDict);
        var merged := DeepUpdate(u[key], val.entries);
        u := u[key := merged];
      } else if val.Items? {
        if |val.items| > 0 && val.items[0].Section? {
          u := u[key := val];
        } else if u[key] != val {
          u := u[key := val];
        }
      } else {
        u := u[key := newDict[key]];
      }
      todo := todo - {key};
    }
    assert u == Merge(unified, Section(newDict)).entries;
    result := Section(u);
  }

  method WithMissingBlank(unified: Node, keys: set<string>) returns (u: map<string, Node>)
    ensures u.Keys == Entries(unified).Keys + keys
    ensures forall k :: k in u ==> u[k] == GetOr(Entries(unified), k, BLANK)
  {
    u := if unified.Section? then unified.entries else map[];
    var todo := keys;
    while todo != {}
      invariant todo <= keys && u.Keys == Entries(unified).Keys + (keys - todo)
      invariant forall k :: k in u ==> u[k] == GetOr(Entries(unified), k, BLANK)
    {
      var key :| key in todo;
      if key !in u { u := u[key := BLANK]; }
      todo := todo - {key};
    }
  }

  lemma {:induction false} MergeIntoNonMapping(t: Node, update: Node)
    requires update.Section? && Entries(t) == map[]
    ensures Merge(t, update) == update
    decreases update
  {
    forall k | k in update.entries && update.entries[k].Section?
      ensures Merge(BLANK, update.entries[k]) == update.entries[k]
    {
      MergeIntoNonMapping(BLANK, update.entries[k]);
    }
    assert Merge(t, update).entries == update.entries;
  }

  /** Every key of `x` is overridden by `y`, all the way down. */
  ghost predicate Covered(x: Node, y: Node)
    requires y.Section?
    decreases x
  {
    x.Section? ==> forall k :: k in x.entries ==>
      k in y.entries && (y.entries[k].Section? ==> Covered(x.entries[k], y.entries[k]))
  }

  lemma {:induction false} CoveredExactly(x: Node, y: Node)
    requires y.Section?
    ensures Merge(x, y) == y <==> Covered(x, y)
    decreases x
  {
    var m := Merge(x, y).entries;
    if !x.Section? {
      MergeIntoNonMapping(x, y);
    } else {
      forall k | k in x.entries && k in y.entries && y.entries[k].Section?
        ensures m[k] == y.entries[k] <==> Covered(x.entries[k], y.entries[k])
      {
        CoveredExactly(x.entries[k], y.entries[k]);
      }
      forall k | k in y.entries && k !in x.entries && y.entries[k].Section?
        ensures m[k] == y.entries[k]
      {
        MergeIntoNonMapping(BLANK, y.entries[k]);
      }
      if Covered(x, y) {
        assert m == y.entries;
      }
    }
  }

  /** Updating twice with the same data changes nothing more. */
  lemma {:induction false} MergeIdempotent(a: Node, b: Node)
    requires b.Section?
    ensures Merge(Merge(a, b), b) == Merge(a, b)
    decreases b
  {
    var once := Merge(a, b);
    forall k | k in b.entries && b.entries[k].Section?
      ensures Merge(once.entries[k], b.entries[k]) == once.entries[k]
    {
      MergeIdempotent(GetOr(Entries(a), k, BLANK), b.entries[k]);
    }
    assert Merge(once, b).entries == once.entries;
  }

  /** Wherever `b` puts a leaf between a mapping of `a` and a mapping of `c`, the mapping of
      `a` holds nothing that `c` does not override. */
  ghost predicate NothingUncovered(a: Node, b: Node, c: Node)
    requires b.Section? && c.Section?
    decreases c, 1
  {
    forall k :: k in c.entries ==> NothingUncoveredAt(a, b, c, k)
  }

  ghost predicate NothingUncoveredAt(a: Node, b: Node, c: Node, k: string)
    requires b.Section? && c.Section? && k in c.entries
    decreases c, 0
  {
    k in b.entries && c.entries[k].Section? ==>
      var ak := GetOr(Entries(a), k, BLANK);
      if b.entries[k].Section? then NothingUncovered(ak, b.entries[k], c.entries[k])
      else Covered(ak, c.entries[k])
  }

  /** Merging is associative on exactly the triples that satisfy `NothingUncovered`. */
  lemma {:induction false} MergeAssociativeExactly(a: Node, b: Node, c: Node)
    requires b.Section? && c.Section?
    ensures Merge(Merge(a, b), c) == Merge(a, Merge(b, c)) <==> NothingUncovered(a, b, c)
    decreases c, 1
  {
    var left, right := Merge(Merge(a, b), c).entries, Merge(a, Merge(b, c)).entries;
    forall k | k in left.Keys
      ensures left[k] == right[k] <==> (k in c.entries ==> NothingUncoveredAt(a, b, c, k))
    {
      AssociativeAt(a, b, c, k);
    }
    if NothingUncovered(a, b, c) {
      assert left == right;
    }
  }

  lemma {:induction false} AssociativeAt(a: Node, b: Node, c: Node, k: string)
    requires b.Section? && c.Section?
    requires k in Merge(Merge(a, b), c).entries
    ensures k in Merge(a, Merge(b, c)).entries
    ensures Merge(Merge(a, b), c).entries[k] == Merge(a, Merge(b, c)).entries[k] <==>
      (k in c.entries ==> NothingUncoveredAt(a, b, c, k))
    decreases c, 0
  {
    if k in c.entries && c.entries[k].Section? {
      var ak, ck := GetOr(Entries(a), k, BLANK), c.entries[k];
      if k !in b.entries {
        MergeIntoNonMapping(BLANK, ck);
      } else if b.entries[k].Section? {
        MergeAssociativeExactly(ak, b.entries[k], ck);
      } else {
        MergeIntoNonMapping(b.entries[k], ck);
        CoveredExactly(ak, ck);
      }
    }
  }

  /** No path is a leaf in one tree and a mapping in the other. */
  ghost predicate KindConsistent(a: Node, b: Node)
    decreases a
  {
    && (a.Section? <==> b.Section?)
    && (a.Section? ==> forall k :: k in a.entries && k in b.entries ==> KindConsistent(a.entries[k], b.entries[k]))
  }

  lemma {:induction false} ConsistentTreesAssociate(a: Node, b: Node, c: Node)
    requires b.Section? && c.Section? && KindConsistent(a, b) && KindConsistent(b, c)
    ensures Merge(Merge(a, b), c) == Merge(a, Merge(b, c))
  {
    ConsistentLeavesNothingUncovered(a, b, c);
    MergeAssociativeExactly(a, b, c);
  }

  lemma {:induction false} ConsistentLeavesNothingUncovered(a: Node, b: Node, c: Node)
    requires b.Section? && c.Section? && (KindConsistent(a, b) || a == BLANK) && KindConsistent(b, c)
    ensures NothingUncovered(a, b, c)
    decreases c
  {
    forall k | k in b.entries && k in c.entries && c.entries[k].Section?
      ensures b.entries[k].Section? && NothingUncovered(GetOr(Entries(a), k, BLANK), b.entries[k], c.entries[k])
    {
      assert KindConsistent(b.entries[k], c.entries[k]);
      ConsistentLeavesNothingUncovered(GetOr(Entries(a), k, BLANK), b.entries[k], c.entries[k]);
    }
  }

  /** A leaf that hides a mapping makes the grouping matter. */
  lemma MergeNotAssociative(x: string, y: string)
    requires x != y
    ensures var a := Section(map["K" := Section(map[x := BLANK])]);
            var b := Section(map["K" := BLANK]);
            var c := Section(map["K" := Section(map[y := BLANK])]);
            Merge(Merge(a, b), c) != Merge(a, Merge(b, c))
  {
    var a := Section(map["K" := Section(map[x := BLANK])]);
    var b := Section(map["K" := BLANK]);
    var c := Section(map["K" := Section(map[y := BLANK])]);
    assert x in a.entries["K"].entries && x !in c.entries["K"].entries;
    assert !NothingUncoveredAt(a, b, c, "K");
    MergeAssociativeExactly(a, b, c);
  }

  // ------------------------------------------------- filling in missing defaults

  /** `deep_add_missing_starter_conf`. None stands for the AttributeError raised when a
      non-empty mapping of defaults meets a value without keys. */
  method AddMissing(data: Node, starter: map<string, Node>) returns (r: Option<Node>)
    ensures r.Some? <==> Fillable(data, Section(starter))
    ensures r.Some? && data.Section? ==> r.value == Merge(Section(starter), data)
    ensures r.Some? && !data.Section? ==> r.value == data
    decreases Section(starter)
  {
    var d := data;
    var todo := starter.Keys;
    while todo != {}
      invariant todo <= starter.Keys && (d.Section? <==> data.Section?)
      invariant !data.Section? ==> d == data && todo == starter.Keys
      invariant data.Section? ==> d.entries.Keys == data.entries.Keys + (starter.Keys - todo)
      invariant data.Section? ==> forall k :: k in d.entries && (k !in starter || k in todo) ==>
        d.entries[k] == data.entries[k]
      invariant data.Section? ==> forall k :: k in starter && k !in todo ==>
        FillableAt(data, Section(starter), k) && d.entries[k] == Merge(Section(starter), data).entries[k]
    {
      var key :| key in todo;
      if !d.Section? { return None; }
      if key !in d.entries {
        d := Section(d.entries[key := starter[key]]);
      } else if starter[key].Section? {
        var filled := AddMissing(d.entries[key], starter[key].entries);
        if filled.None? { return None; }
        d := Section(d.entries[key := filled.value]);
      }
      if key in data.entries && data.entries[key].Section? && !starter[key].Section? {
        MergeIntoNonMapping(starter[key], data.entries[key]);
      }
      todo := todo - {key};
    }
    forall k | data.Section? && k in data.entries && k !in starter && data.entries[k].Section?
      ensures Merge(BLANK, data.entries[k]) == data.entries[k]
    {
      MergeIntoNonMapping(BLANK, data.entries[k]);
    }
    assert data.Section? ==> d.entries == Merge(Section(starter), data).entries;
    r := Some(d);
  }

  ghost predicate FillableAt(data: Node, starter: Node, k: string)
    requires data.Section? && starter.Section? && k in starter.entries
    decreases starter, 0
  {
    k in data.entries && starter.entries[k].Section? ==> Fillable(data.entries[k], starter.entries[k])
  }

  /** No leaf of `data` stands where the defaults have a non-empty mapping. */
  ghost predicate Fillable(data: Node, starter: Node)
    requires starter.Section?
    decreases starter
  {
    if data.Section? then forall k :: k in starter.entries ==> FillableAt(data, starter, k)
    else starter.entries == map[]
  }

  lemma {:induction false} ConsistentTreesAreFillable(data: Node, starter: Node)
    requires starter.Section? && KindConsistent(data, starter)
    ensures Fillable(data, starter)
    decreases starter
  {
    forall k | k in starter.entries && k in data.entries && starter.entries[k].Section?
      ensures Fillable(data.entries[k], starter.entries[k])
    {
      ConsistentTreesAreFillable(data.entries[k], starter.entries[k]);
    }
  }
}

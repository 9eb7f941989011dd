/** The values of a FOR section. They are written as one text when the configuration is read,
    and taken apart at the commas when the loop is expanded. */
module ForValues {
  import opened Options
  import opened ConfigTree
  import opened Sequences
  import opened Splitting
  import opened Placeholders

  /** What Python writes a list as. Only of lists of plain texts is anything assumed about it. */
  type Str = Node -> string

  function TextFrom(s: string): Node { Text(Tokenised(s)) }

  function Without(s: string, c: char): string {
    if s == [] then [] else (if s[0] == c then [] else [s[0]]) + Without(s[1..], c)
  }

  /** What `deep_read_loops` writes in place of the values; None stands for an error. A list that
      starts with a mapping stays as it is. */
  function ReadValue(n: Node, str: Str): Option<Node> {
    match n
    case Items(items) =>
      if items == [] then None
      else if items[0].Section? then Some(n)
      else Some(TextFrom(Without(Strip(str(n), "[]"), '\'')))
    case Text(tokens) =>
      if Written(tokens) == "" then None else Some(TextFrom(Without(Strip(Written(tokens), "[]"), '\'')))
    case Section(_) => None
  }

  /** What `parse_data_loops` takes the values for. */
  function Values(n: Node, str: Str): Option<seq<Node>> {
    match n
    case Items(items) =>
      if items == [] then None
      else if items[0].Section? then Some(items)
      else Some(Torn(str(n)))
    case Text(tokens) => if Written(tokens) == "" then None else Some(Torn(Written(tokens)))
    case Section(_) => None
  }

  function Torn(s: string): seq<Node> {
    var parts := Split(Strip(s, "[]"), ',');
    seq(|parts|, i requires 0 <= i < |parts| => TextFrom(Strip(parts[i], "' ")))
  }

  // ---------------------------------------------------------------- lists of plain texts

  /** Printable, and without quotes and backslashes. */
  predicate Quotable(x: string) { forall i :: 0 <= i < |x| ==> ' ' <= x[i] <= '~' && x[i] !in "'\"\\" }

  /** Such texts, and lists of them at any depth. */
  predicate Writable(n: Node) {
    match n
    case Text(tokens) => Quotable(Written(tokens))
    case Items(items) => forall i :: 0 <= i < |items| ==> Writable(items[i])
    case Section(_) => false
  }

  function Repr(n: Node): string
    requires Writable(n)
  {
    match n
    case Text(tokens) => "'" + Written(tokens) + "'"
    case Items(items) => "[" + Joined(seq(|items|, i requires 0 <= i < |items| => Repr(items[i]))) + "]"
  }

  function Joined(parts: seq<string>): string {
    if parts == [] then ""
    else if |parts| == 1 then parts[0]
    else Joined(parts[..|parts|-1]) + [','] + (" " + parts[|parts|-1])
  }

  /** Texts are written in lists as they are, between quotes. */
  ghost predicate WritesPlainly(str: Str) { forall n: Node :: n.Items? && Writable(n) ==> str(n) == Repr(n) }

  predicate AllQuotable(xs: seq<string>) { forall i :: 0 <= i < |xs| ==> Quotable(xs[i]) }

  function TextList(xs: seq<string>): Node { Items(TextNodes(xs)) }

  function TextNodes(xs: seq<string>): seq<Node> { seq(|xs|, i requires 0 <= i < |xs| => TextFrom(xs[i])) }

  function Quoted(xs: seq<string>): seq<string> { seq(|xs|, i requires 0 <= i < |xs| => "'" + xs[i] + "'") }

  lemma ReprOfTexts(xs: seq<string>)
    requires AllQuotable(xs)
    ensures Writable(TextList(xs)) && Repr(TextList(xs)) == "[" + Joined(Quoted(xs)) + "]"
  {
    var n := TextList(xs);
    forall i | 0 <= i < |xs| ensures Writable(n.items[i]) && Repr(n.items[i]) == Quoted(xs)[i] {
      WrittenTokenised(xs[i]);
    }
    assert seq(|n.items|, i requires 0 <= i < |n.items| => Repr(n.items[i])) == Quoted(xs);
  }

  // ---------------------------------------------------------------- stripping

  lemma {:induction false} StripLeftShorter(s: string, cs: string)
    ensures |StripLeft(s, cs)| <= |s| && (StripLeft(s, cs) == s <==> s == [] || s[0] !in cs)
    ensures StripLeft(s, cs) == s[|s| - |StripLeft(s, cs)|..]
    ensures StripLeft(s, cs) != [] ==> StripLeft(s, cs)[0] !in cs
  {
    if s != [] && s[0] in cs { StripLeftShorter(s[1..], cs); }
  }

  lemma {:induction false} StripRightShorter(s: string, cs: string)
    ensures |StripRight(s, cs)| <= |s| && (StripRight(s, cs) == s <==> s == [] || s[|s|-1] !in cs)
    ensures StripRight(s, cs) == s[..|StripRight(s, cs)|]
    ensures StripRight(s, cs) != [] ==> StripRight(s, cs)[|StripRight(s, cs)|-1] !in cs
  {
    if s != [] && s[|s|-1] in cs { StripRightShorter(s[..|s|-1], cs); }
  }

  /** Stripping takes nothing but what stands at the ends, and leaves none of it there. */
  lemma StripShorter(s: string, cs: string)
    ensures |Strip(s, cs)| <= |s| && (Strip(s, cs) == s <==> Bare(s, cs)) && Bare(Strip(s, cs), cs)
    ensures forall c :: c in Strip(s, cs) ==> c in s
  {
    StripLeftShorter(s, cs);
    StripRightShorter(StripLeft(s, cs), cs);
  }

  /** Brackets before and after a text that is followed, or led, by something else. */
  lemma {:induction false} StripLeftFront(a: string, rest: string, cs: string)
    requires rest == [] || rest[0] !in cs
    ensures StripLeft(a + rest, cs) == StripLeft(a, cs) + rest
  {
    if a == [] {
      assert a + rest == rest;
    } else if a[0] in cs {
      StripLeftFront(a[1..], rest, cs);
      assert (a + rest)[1..] == a[1..] + rest;
    }
  }

  lemma {:induction false} StripRightBack(front: string, a: string, cs: string)
    requires front == [] || front[|front|-1] !in cs
    ensures StripRight(front + a, cs) == front + StripRight(a, cs)
  {
    if a == [] {
      assert front + a == front;
    } else if a[|a|-1] in cs {
      StripRightBack(front, a[..|a|-1], cs);
      assert (front + a)[..|front + a|-1] == front + a[..|a|-1];
    }
  }

  // ---------------------------------------------------------------- joined texts

  lemma JoinedLast(xs: seq<string>)
    requires |xs| > 1
    ensures Joined(xs) == Joined(xs[..|xs|-1]) + [','] + (" " + xs[|xs|-1])
  {}

  lemma JoinedOne(x: string)
    ensures Joined([x]) == x
  {}

  /** What follows the first text. */
  function RestJoined(xs: seq<string>): string
    requires xs != []
  {
    if |xs| == 1 then "" else RestJoined(xs[..|xs|-1]) + [','] + (" " + xs[|xs|-1])
  }

  lemma {:induction false} JoinedFirst(xs: seq<string>)
    requires xs != []
    ensures Joined(xs) == xs[0] + RestJoined(xs) && (RestJoined(xs) == "" || RestJoined(xs)[0] == ',')
  {
    var n := |xs| - 1;
    if n > 0 {
      JoinedFirst(xs[..n]);
      Regroup(xs[0], RestJoined(xs[..n]), [',']);
      Regroup(xs[0], RestJoined(xs[..n]) + [','], " " + xs[n]);
    }
  }

  lemma RestIgnoresFirst(xs: seq<string>, x: string)
    requires xs != []
    ensures RestJoined(xs[0 := x]) == RestJoined(xs)
  {
    if |xs| > 1 {
      RestIgnoresFirst(xs[..|xs|-1], x);
      assert xs[0 := x][..|xs|-1] == xs[..|xs|-1][0 := x];
    }
  }

  /** The texts without the brackets at both ends. */
  function Trimmed(xs: seq<string>): seq<string>
    requires xs != []
  {
    var ys := xs[0 := StripLeft(xs[0], "[]")];
    ys[|ys|-1 := StripRight(ys[|ys|-1], "[]")]
  }

  lemma StripJoined(xs: seq<string>)
    requires xs != []
    ensures Strip(Joined(xs), "[]") == Joined(Trimmed(xs))
  {
    var ys := xs[0 := StripLeft(xs[0], "[]")];
    JoinedFirst(xs);
    StripLeftFront(xs[0], RestJoined(xs), "[]");
    RestIgnoresFirst(xs, StripLeft(xs[0], "[]"));
    JoinedFirst(ys);
    hide StripLeft, StripRight, RestJoined;
    assert StripLeft(Joined(xs), "[]") == Joined(ys);
    var n := |ys| - 1;
    if n == 0 {
      JoinedOne(ys[0]);
      JoinedOne(StripRight(ys[0], "[]"));
      assert ys == [ys[0]] && Trimmed(xs) == [StripRight(ys[0], "[]")];
    } else {
      var front := Joined(ys[..n]) + [','] + " ";
      JoinedLast(ys);
      JoinedLast(Trimmed(xs));
      assert Trimmed(xs)[..n] == ys[..n];
      Regroup(Joined(ys[..n]) + [','], " ", ys[n]);
      StripRightBack(front, ys[n], "[]");
      Regroup(Joined(ys[..n]) + [','], " ", StripRight(ys[n], "[]"));
    }
  }

  /** The parts between the commas. */
  function Parts(xs: seq<string>): seq<string> {
    seq(|xs|, i requires 0 <= i < |xs| => if i == 0 then xs[i] else " " + xs[i])
  }

  predicate NoCommas(xs: seq<string>) { forall i :: 0 <= i < |xs| ==> ',' !in xs[i] }

  lemma {:induction false} SplitJoined(xs: seq<string>)
    requires xs != [] && NoCommas(xs)
    ensures Split(Joined(xs), ',') == Parts(xs)
  {
    var n := |xs| - 1;
    if n == 0 {
      SplitPlain(xs[0], ',');
      assert Parts(xs) == [xs[0]];
    } else {
      hide Split, Joined;
      SplitJoined(xs[..n]);
      SplitLast(Joined(xs[..n]), ',', " " + xs[n]);
      JoinedLast(xs);
      assert Parts(xs) == Parts(xs[..n]) + [" " + xs[n]];
    }
  }

  lemma {:induction false} SplitHasNoCommas(s: string)
    ensures NoCommas(Split(s, ','))
  {
    if s != [] {
      SplitHasNoCommas(s[..|s|-1]);
      SplitOneMore(s[..|s|-1], s[|s|-1], ',');
      assert s[..|s|-1] + [s[|s|-1]] == s;
      hide Split;
      var before := Split(s[..|s|-1], ',');
      assert NoCommas(before[..|before|-1]);
    }
  }

  // ---------------------------------------------------------------- which lists survive

  lemma TornExactly(s: string, xs: seq<string>)
    ensures var parts := Split(Strip(s, "[]"), ',');
      Torn(s) == TextNodes(xs) <==> |parts| == |xs| && forall i :: 0 <= i < |xs| ==> Strip(parts[i], "' ") == xs[i]
  {
    hide Split, Strip, Tokenised;
    var parts := Split(Strip(s, "[]"), ',');
    assert |Torn(s)| == |parts| && |TextNodes(xs)| == |xs|;
    if Torn(s) == TextNodes(xs) {
      forall i | 0 <= i < |xs| ensures Strip(parts[i], "' ") == xs[i] {
        assert Torn(s)[i] == TextFrom(Strip(parts[i], "' ")) && TextNodes(xs)[i] == TextFrom(xs[i]);
        TokenisedInjective(Strip(parts[i], "' "), xs[i]);
      }
    }
  }

  /** Without commas, and without spaces around. */
  predicate Plain(xs: seq<string>) { forall i :: 0 <= i < |xs| ==> ',' !in xs[i] && Bare(xs[i], " ") }

  /** What comes out of a list that was joined has no commas, and no spaces around. */
  lemma TornIsPlain(s: string, xs: seq<string>)
    requires Torn(s) == TextNodes(xs)
    ensures Plain(xs)
  {
    TornExactly(s, xs);
    var parts := Split(Strip(s, "[]"), ',');
    SplitHasNoCommas(Strip(s, "[]"));
    hide Split, Strip, Torn, TextNodes;
    forall i | 0 <= i < |xs| ensures ',' !in xs[i] && Bare(xs[i], " ") {
      assert ',' !in parts[i];
      StripShorter(parts[i], "' ");
    }
  }

  predicate Unquoted(x: string) { '\'' !in x }

  lemma StripPart(x: string, before: string, after: string)
    requires (forall i :: 0 <= i < |before| ==> before[i] in "' ") && forall i :: 0 <= i < |after| ==> after[i] in "' "
    requires Unquoted(x) && Bare(x, " ")
    ensures Strip(before + x + after, "' ") == x
  {
    assert Bare(x, "' ");
    StripAround(before, x, after, "' ");
  }

  lemma SpaceBefore(x: string)
    ensures Strip(" " + x, "' ") == Strip(x, "' ")
  {
    assert (" " + x)[1..] == x;
  }

  lemma QuotableIsUnquoted(xs: seq<string>)
    requires AllQuotable(xs)
    ensures forall i :: 0 <= i < |xs| ==> Unquoted(xs[i])
  {
    forall i | 0 <= i < |xs| ensures Unquoted(xs[i]) { assert Quotable(xs[i]); }
  }

  /** The text of a joined list. */
  lemma TornJoinedExactly(xs: seq<string>)
    requires xs != [] && AllQuotable(xs)
    ensures Torn(Joined(xs)) == TextNodes(xs) <==> Plain(xs) && Trimmed(xs) == xs
  {
    hide Split, Strip, Joined, StripLeft, StripRight, AllQuotable;
    QuotableIsUnquoted(xs);
    if Torn(Joined(xs)) == TextNodes(xs) { TornIsPlain(Joined(xs), xs); }
    if Plain(xs) {
      StripJoined(xs);
      TrimmedShorter(xs);
      TornExactly(Joined(xs), xs);
      SplitJoined(Trimmed(xs));
      PartsStripped(xs, Trimmed(xs));
    }
  }

  lemma TrimmedShorter(xs: seq<string>)
    requires xs != [] && Plain(xs)
    ensures |Trimmed(xs)| == |xs| && NoCommas(Trimmed(xs))
    ensures forall i :: 0 <= i < |xs| ==>
      var y := Trimmed(xs)[i]; |y| <= |xs[i]| && (|y| == |xs[i]| ==> y == xs[i])
  {
    var x, last := xs[0], xs[|xs|-1];
    StripLeftShorter(x, "[]");
    StripRightShorter(last, "[]");
    StripRightShorter(StripLeft(x, "[]"), "[]");
  }

  /** The parts give the texts exactly if nothing had been cut off. */
  lemma PartsStripped(xs: seq<string>, ys: seq<string>)
    requires |ys| == |xs| && Plain(xs) && forall i :: 0 <= i < |xs| ==> Unquoted(xs[i])
    requires forall i :: 0 <= i < |xs| ==> |ys[i]| <= |xs[i]| && (|ys[i]| == |xs[i]| ==> ys[i] == xs[i])
    ensures (forall i :: 0 <= i < |xs| ==> Strip(Parts(ys)[i], "' ") == xs[i]) <==> ys == xs
  {
    hide Strip, Unquoted;
    forall i | 0 <= i < |xs| ensures Strip(Parts(ys)[i], "' ") == xs[i] <==> ys[i] == xs[i] {
      SpaceBefore(ys[i]);
      StripShorter(ys[i], "' ");
      StripPart(xs[i], "", "");
      assert "" + xs[i] + "" == xs[i];
    }
  }

  lemma TrimmedIff(xs: seq<string>)
    requires xs != []
    ensures Trimmed(xs) == xs <==> FreeEnds(xs)
  {
    var x, last := xs[0], xs[|xs|-1];
    StripLeftShorter(x, "[]");
    StripRightShorter(last, "[]");
    StripRightShorter(StripLeft(x, "[]"), "[]");
    assert Trimmed(xs) == xs ==> Trimmed(xs)[0] == x && Trimmed(xs)[|xs|-1] == last;
  }

  /** The first text does not start with a bracket, the last does not end with one. */
  predicate FreeEnds(xs: seq<string>)
    requires xs != []
  {
    var x, last := xs[0], xs[|xs|-1];
    (x == "" || x[0] !in "[]") && (last == "" || last[|last|-1] !in "[]")
  }

  lemma {:induction false} WithoutConcat(s: string, t: string, c: char)
    ensures Without(s + t, c) == Without(s, c) + Without(t, c)
  {
    if s == [] {
      assert s + t == t;
    } else {
      assert (s + t)[1..] == s[1..] + t;
      WithoutConcat(s[1..], t, c);
    }
  }

  lemma {:induction false} WithoutNone(s: string, c: char)
    requires c !in s
    ensures Without(s, c) == s
  {
    if s != [] {
      WithoutNone(s[1..], c);
      assert [s[0]] + s[1..] == s;
    }
  }

  lemma UnquoteOne(x: string)
    requires Unquoted(x)
    ensures Without("'" + x + "'", '\'') == x
  {
    WithoutConcat("'" + x, "'", '\'');
    WithoutConcat("'", x, '\'');
    WithoutNone(x, '\'');
    assert "'"[1..] == "";
  }

  lemma {:induction false} UnquoteAll(xs: seq<string>)
    requires forall i :: 0 <= i < |xs| ==> Unquoted(xs[i])
    ensures Without(Joined(Quoted(xs)), '\'') == Joined(xs)
  {
    if xs != [] {
      var n := |xs| - 1;
      UnquoteOne(xs[n]);
      if n > 0 {
        UnquoteAll(xs[..n]);
        JoinedLast(xs);
        assert Quoted(xs) == Quoted(xs[..n]) + ["'" + xs[n] + "'"];
        JoinedLast(Quoted(xs));
        UnquoteLast(Joined(Quoted(xs[..n])), "'" + xs[n] + "'");
      }
    }
  }

  lemma UnquoteLast(s: string, t: string)
    ensures Without(s + [','] + (" " + t), '\'') == Without(s, '\'') + [','] + (" " + Without(t, '\''))
  {
    WithoutConcat(s + [','], " " + t, '\'');
    WithoutConcat(s, [','], '\'');
    WithoutConcat(" ", t, '\'');
    WithoutNone([','], '\'');
    WithoutNone(" ", '\'');
  }

  lemma QuotedEnds(xs: seq<string>)
    requires xs != []
    ensures Bare(Joined(Quoted(xs)), "[]")
  {
    JoinedFirst(Quoted(xs));
    var n := |xs| - 1;
    if n > 0 { JoinedLast(Quoted(xs)); }
  }

  /** The brackets of a list are stripped, and no others. */
  lemma StripList(xs: seq<string>, a: string, b: string)
    requires xs != []
    requires (forall i :: 0 <= i < |a| ==> a[i] in "[]") && forall i :: 0 <= i < |b| ==> b[i] in "[]"
    ensures Strip(a + Joined(Quoted(xs)) + b, "[]") == Joined(Quoted(xs))
  {
    QuotedEnds(xs);
    StripAround(a, Joined(Quoted(xs)), b, "[]");
  }

  lemma ReadTextList(xs: seq<string>, str: Str)
    requires AllQuotable(xs) && WritesPlainly(str)
    ensures ReadValue(TextList(xs), str) == if xs == [] then None else Some(TextFrom(Joined(xs)))
  {
    ReprOfTexts(xs);
    QuotableIsUnquoted(xs);
    if xs != [] {
      hide Strip, Joined, Quoted, Without, Repr, AllQuotable, Tokenised;
      StripList(xs, "[", "]");
      UnquoteAll(xs);
    }
  }

  /** A list of texts comes back from being written as one text if and only if no text has a comma,
      or a space at an end, the first does not start and the last does not end with a bracket, and it
      is not empty, nor one empty text. */
  lemma ReadListsSurviveExactly(xs: seq<string>, str: Str)
    requires AllQuotable(xs) && WritesPlainly(str)
    ensures var read := ReadValue(TextList(xs), str);
      (read.Some? && Values(read.value, str) == Some(TextNodes(xs)))
        <==> xs != [] && xs != [""] && Plain(xs) && FreeEnds(xs)
  {
    hide Joined, Quoted, Repr, AllQuotable, Tokenised, Torn, Plain, FreeEnds, Trimmed;
    ReadTextList(xs, str);
    if xs != [] {
      WrittenTokenised(Joined(xs));
      TornJoinedExactly(xs);
      TrimmedIff(xs);
      JoinedEmpty(xs);
    }
  }

  lemma JoinedEmpty(xs: seq<string>)
    requires xs != []
    ensures Joined(xs) == "" <==> xs == [""]
  {}

  /** A list that is taken apart without having been read survives also with brackets at its ends. */
  lemma ListsSurviveExactly(xs: seq<string>, str: Str)
    requires AllQuotable(xs) && WritesPlainly(str)
    ensures Values(TextList(xs), str) == Some(TextNodes(xs)) <==> xs != [] && Plain(xs)
  {
    ReprOfTexts(xs);
    hide Joined, Quoted, Repr, AllQuotable, Tokenised, Torn, Plain;
    if xs != [] { TornListExactly(xs, "[", "]"); }
  }

  lemma TornListExactly(xs: seq<string>, a: string, b: string)
    requires xs != [] && AllQuotable(xs)
    requires (forall i :: 0 <= i < |a| ==> a[i] in "[]") && forall i :: 0 <= i < |b| ==> b[i] in "[]"
    ensures Torn(a + Joined(Quoted(xs)) + b) == TextNodes(xs) <==> Plain(xs)
  {
    var s := a + Joined(Quoted(xs)) + b;
    hide Split, Strip, Joined, Torn, AllQuotable;
    QuotableIsUnquoted(xs);
    if Torn(s) == TextNodes(xs) { TornIsPlain(s, xs); }
    if Plain(xs) {
      StripList(xs, a, b);
      TornExactly(s, xs);
      QuotedPlain(xs);
      SplitJoined(Quoted(xs));
      forall i | 0 <= i < |xs| ensures Strip(Parts(Quoted(xs))[i], "' ") == xs[i] {
        var before := if i == 0 then "'" else " '";
        StripPart(xs[i], before, "'");
        assert Parts(Quoted(xs))[i] == before + xs[i] + "'";
      }
    }
  }

  lemma QuotedPlain(xs: seq<string>)
    requires Plain(xs)
    ensures NoCommas(Quoted(xs))
  {}

  /** Lists of mappings stay as they are. */
  lemma MappingsSurvive(items: seq<Node>, str: Str)
    requires items != [] && items[0].Section?
    ensures ReadValue(Items(items), str) == Some(Items(items)) && Values(Items(items), str) == Some(items)
  {}

  /** A list within a list is torn apart at its commas: it comes out as the inner list. */
  lemma NestedListIsTorn(xs: seq<string>, str: Str)
    requires xs != [] && AllQuotable(xs) && Plain(xs) && WritesPlainly(str)
    ensures Values(Items([TextList(xs)]), str) == Some(TextNodes(xs))
  {
    hide Strip, Split, Joined, Quoted, Plain, Torn, AllQuotable;
    ReprOfTexts(xs);
    TornListExactly(xs, "[[", "]]");
    var n := Items([TextList(xs)]);
    assert n.items[0] == TextList(xs) && Writable(n);
    assert seq(1, i requires 0 <= i < 1 => Repr(n.items[i])) == [Repr(n.items[0])];
    JoinedOne(Repr(n.items[0]));
    assert "[" + ("[" + Joined(Quoted(xs)) + "]") + "]" == "[[" + Joined(Quoted(xs)) + "]]";
  }
}

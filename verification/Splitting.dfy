/** Splitting texts at a separator, and stripping their ends. */
module Splitting {
  import opened Sequences

  /** `split`: the parts between the separators. */
  function Split(s: string, c: char): (r: seq<string>)
    ensures r != [] && (c in s ==> |r| >= 2)
  {
    if s == [] then [[]]
    else
      var r := Split(s[..|s|-1], c);
      if s[|s|-1] == c then r + [[]] else r[..|r|-1] + [r[|r|-1] + [s[|s|-1]]]
  }

  lemma SplitOneMore(s: string, x: char, c: char)
    ensures var r := Split(s, c);
      Split(s + [x], c) == if x == c then r + [[]] else r[..|r|-1] + [r[|r|-1] + [x]]
  {
    assert (s + [x])[..|s|] == s;
  }

  lemma {:induction false} SplitPlain(s: string, c: char)
    requires c !in s
    ensures Split(s, c) == [s]
  {
    if s != [] {
      SplitPlain(s[..|s|-1], c);
      SplitOneMore(s[..|s|-1], s[|s|-1], c);
      hide Split;
      assert s[..|s|-1] + [s[|s|-1]] == s;
    }
  }

  lemma SplitNext(s: string, x: char, c: char, a: seq<string>, b: seq<string>)
    requires b != [] && Split(s, c) == a + b
    ensures Split(s + [x], c) == a + if x == c then b + [[]] else b[..|b|-1] + [b[|b|-1] + [x]]
  {
    SplitOneMore(s, x, c);
    hide Split;
    var r := a + b;
    assert r[..|r|-1] == a + b[..|b|-1];
    assert r[|r|-1] == b[|b|-1];
  }

  /** The parts of two texts with a separator between them. */
  lemma {:induction false} SplitBoth(s: string, c: char, t: string)
    ensures Split(s + [c] + t, c) == Split(s, c) + Split(t, c)
  {
    if t == [] {
      SplitOneMore(s, c, c);
      SplitPlain(t, c);
      hide Split;
      assert s + [c] + t == s + [c];
    } else {
      hide *;
      var init, x := t[..|t|-1], t[|t|-1];
      SplitBoth(s, c, init);
      SplitOneMore(init, x, c);
      SplitNext(s + [c] + init, x, c, Split(s, c), Split(init, c));
      assert init + [x] == t;
      Regroup(s + [c], init, [x]);
    }
  }

  lemma SplitTwo(s: string, c: char, t: string)
    requires c !in s && c !in t
    ensures Split(s + [c] + t, c) == [s, t]
  {
    SplitBoth(s, c, t);
    SplitPlain(s, c);
    SplitPlain(t, c);
    hide Split;
  }

  /** With one separator more, and a last part without it, there is one part more. */
  lemma SplitLast(s: string, c: char, t: string)
    requires c !in t
    ensures Split(s + [c] + t, c) == Split(s, c) + [t]
  {
    SplitBoth(s, c, t);
    SplitPlain(t, c);
    hide Split;
  }

  /** `strip`: without the characters `cs` at either end. */
  function Strip(s: string, cs: string): string { StripRight(StripLeft(s, cs), cs) }

  function StripLeft(s: string, cs: string): string { if s != [] && s[0] in cs then StripLeft(s[1..], cs) else s }

  function StripRight(s: string, cs: string): string {
    if s != [] && s[|s|-1] in cs then StripRight(s[..|s|-1], cs) else s
  }

  /** A text with other characters at both ends, or an empty one. */
  predicate Bare(s: string, cs: string) { s == [] || (s[0] !in cs && s[|s|-1] !in cs) }

  lemma {:induction false} StripLeftOf(a: string, s: string, cs: string)
    requires (forall i :: 0 <= i < |a| ==> a[i] in cs) && (s == [] || s[0] !in cs)
    ensures StripLeft(a + s, cs) == s
  {
    if a == [] {
      assert a + s == s;
    } else {
      StripLeftOf(a[1..], s, cs);
      assert (a + s)[1..] == a[1..] + s;
    }
  }

  lemma {:induction false} StripRightOf(s: string, b: string, cs: string)
    requires (forall i :: 0 <= i < |b| ==> b[i] in cs) && (s == [] || s[|s|-1] !in cs)
    ensures StripRight(s + b, cs) == s
  {
    if b == [] {
      assert s + b == s;
    } else {
      StripRightOf(s, b[..|b|-1], cs);
      assert (s + b)[..|s + b|-1] == s + b[..|b|-1];
    }
  }

  /** Stripping takes away what was put around a bare text. */
  lemma StripAround(a: string, s: string, b: string, cs: string)
    requires (forall i :: 0 <= i < |a| ==> a[i] in cs) && (forall i :: 0 <= i < |b| ==> b[i] in cs) && Bare(s, cs)
    ensures Strip(a + s + b, cs) == s
  {
    Regroup(a, s, b);
    if s == [] {
      StripLeftOf(a + b, [], cs);
      assert a + b + [] == a + s + b;
    } else {
      StripLeftOf(a, s + b, cs);
      StripRightOf(s, b, cs);
    }
  }

  function JoinWith(parts: seq<string>, c: char): string {
    if parts == [] then ""
    else if |parts| == 1 then parts[0]
    else JoinWith(parts[..|parts|-1], c) + [c] + parts[|parts|-1]
  }

  lemma JoinLast(parts: seq<string>, last: string, c: char)
    ensures parts != [] ==> JoinWith(parts + [last], c) == JoinWith(parts, c) + [c] + last
    ensures parts == [] ==> JoinWith(parts + [last], c) == last
  {
    assert (parts + [last])[..|parts|] == parts;
  }

  /** Joining the parts gives back the text. */
  lemma {:induction false} JoinSplit(s: string, c: char)
    ensures JoinWith(Split(s, c), c) == s
  {
    if s != [] {
      hide *;
      var init, x := s[..|s|-1], s[|s|-1];
      JoinSplit(init, c);
      SplitOneMore(init, x, c);
      JoinOneMore(Split(init, c), x, c);
      assert s == init + [x];
    }
  }

  lemma JoinOneMore(r: seq<string>, x: char, c: char)
    requires r != []
    ensures var r' := if x == c then r + [[]] else r[..|r|-1] + [r[|r|-1] + [x]];
      JoinWith(r', c) == JoinWith(r, c) + [x]
  {
    var before, last := r[..|r|-1], r[|r|-1];
    assert r == before + [last];
    if x == c {
      JoinLast(r, [], c);
    } else {
      JoinLast(before, last, c);
      JoinLast(before, last + [x], c);
      Regroup(JoinWith(before, c) + [c], last, [x]);
    }
  }

  /** Parts without the separator come back when they are joined and split. */
  lemma {:induction false} SplitJoin(parts: seq<string>, c: char)
    requires parts != [] && forall i :: 0 <= i < |parts| ==> c !in parts[i]
    ensures Split(JoinWith(parts, c), c) == parts
  {
    var init, last := parts[..|parts|-1], parts[|parts|-1];
    assert parts == init + [last];
    if init == [] {
      SplitPlain(last, c);
    } else {
      SplitJoin(init, c);
      SplitLast(JoinWith(init, c), c, last);
    }
  }
}

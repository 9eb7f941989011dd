/** Texts as they are written, and the placeholders in them. */
module Placeholders {
  import opened ConfigTree
  import opened Sequences
  import opened Splitting

  type Tokens = seq<Token>

  function RefsIn(ts: Tokens): set<Path> {
    if ts == [] then {} else (if ts[0].Ref? then {ts[0].path} else {}) + RefsIn(ts[1..])
  }

  function HasRef(ts: Tokens): bool { RefsIn(ts) != {} }

  lemma {:induction false} RefsInConcat(a: Tokens, b: Tokens)
    ensures RefsIn(a + b) == RefsIn(a) + RefsIn(b)
  {
    if a == [] {
      assert a + b == b;
    } else {
      assert (a + b)[1..] == a[1..] + b;
      RefsInConcat(a[1..], b);
    }
  }

  lemma RefAt(key: Tokens, i: nat)
    requires i < |key| && key[i].Ref?
    ensures key[i].path in RefsIn(key) && HasRef(key)
  {
    assert key == key[..i] + ([key[i]] + key[i+1..]);
    RefsInConcat(key[..i], [key[i]] + key[i+1..]);
    RefsInConcat([key[i]], key[i+1..]);
  }

  // ---------------------------------------------------------------- texts and tokens

  function Written(ts: Tokens): string { if ts == [] then "" else WrittenToken(ts[0]) + Written(ts[1..]) }

  function WrittenToken(tok: Token): string {
    match tok
    case Lit(text) => text
    case Ref(path) => "%" + JoinWith(path, '.') + "%"
  }

  lemma {:induction false} WrittenConcat(a: Tokens, b: Tokens)
    ensures Written(a + b) == Written(a) + Written(b)
  {
    if a == [] {
      assert a + b == b;
    } else {
      assert (a + b)[1..] == a[1..] + b;
      WrittenConcat(a[1..], b);
      Regroup(WrittenToken(a[0]), Written(a[1..]), Written(b));
    }
  }

  predicate NameChar(c: char) {
    'a' <= c <= 'z' || 'A' <= c <= 'Z' || '0' <= c <= '9' || c == '_' || c == '.' || c == '-'
  }

  /** The number of characters of a name at the start. */
  function NameLength(s: string): (n: nat)
    ensures n <= |s|
  {
    if s == "" || !NameChar(s[0]) then 0 else 1 + NameLength(s[1..])
  }

  /** The text cut at its placeholders, which are names between percent signs. */
  function Tokenised(s: string): Tokens
    decreases |s|
  {
    if s == "" then []
    else
      var n := NameLength(s[1..]);
      if s[0] == '%' && n + 1 < |s| && s[n + 1] == '%'
      then [Ref(Split(s[1..n + 1], '.'))] + Tokenised(s[n + 2..])
      else WithLetter(s[0], Tokenised(s[1..]))
  }

  function WithLetter(c: char, ts: Tokens): Tokens {
    if ts != [] && ts[0].Lit? then [Lit([c] + ts[0].text)] + ts[1..] else [Lit([c])] + ts
  }

  /** A placeholder stands at the start. */
  predicate StartsWithName(s: string) {
    s != "" && s[0] == '%' && var n := NameLength(s[1..]); n + 1 < |s| && s[n + 1] == '%'
  }

  lemma TokenisedFirst(s: string)
    requires s != ""
    ensures var n := NameLength(s[1..]);
      Tokenised(s) == if StartsWithName(s) then [Ref(Split(s[1..n + 1], '.'))] + Tokenised(s[n + 2..])
                      else WithLetter(s[0], Tokenised(s[1..]))
  {}

  /** Cutting a text loses nothing. */
  lemma {:induction false} WrittenTokenised(s: string)
    ensures Written(Tokenised(s)) == s
    decreases |s|
  {
    if s != "" {
      TokenisedFirst(s);
      var n := NameLength(s[1..]);
      var named := StartsWithName(s);
      assert named ==> n + 1 < |s| && s[0] == '%' && s[n + 1] == '%';
      hide *;
      if named {
        WrittenTokenised(s[n + 2..]);
        WrittenName(s, n);
      } else {
        WrittenTokenised(s[1..]);
        WrittenWithLetter(s[0], Tokenised(s[1..]));
        assert s == [s[0]] + s[1..];
      }
    }
  }

  lemma WrittenName(s: string, n: nat)
    requires n + 1 < |s| && s[0] == '%' && s[n + 1] == '%'
    ensures var name := Ref(Split(s[1..n + 1], '.'));
      forall rest :: Written([name] + rest) == "%" + s[1..n + 1] + "%" + Written(rest)
    ensures s == "%" + s[1..n + 1] + "%" + s[n + 2..]
  {
    JoinSplit(s[1..n + 1], '.');
    var name := Ref(Split(s[1..n + 1], '.'));
    forall rest ensures Written([name] + rest) == WrittenToken(name) + Written(rest) {
      assert ([name] + rest)[1..] == rest;
    }
  }

  lemma WrittenWithLetter(c: char, ts: Tokens)
    ensures Written(WithLetter(c, ts)) == [c] + Written(ts)
  {
    if ts != [] && ts[0].Lit? { assert WithLetter(c, ts)[1..] == ts[1..]; }
  }

  lemma TokenisedInjective(s: string, s': string)
    requires Tokenised(s) == Tokenised(s')
    ensures s == s'
  {
    WrittenTokenised(s);
    WrittenTokenised(s');
  }

  // ---------------------------------------------------------------- replacing in texts

  /** `replace`: every occurrence of `o`, from the left. The empty text occurs around every character. */
  function ReplaceAll(s: string, o: string, n: string): string
    decreases |s|
  {
    if o == "" then Between(s, n)
    else if |s| < |o| then s
    else if s[..|o|] == o then n + ReplaceAll(s[|o|..], o, n)
    else [s[0]] + ReplaceAll(s[1..], o, n)
  }

  function Between(s: string, n: string): string {
    if s == "" then n else n + [s[0]] + Between(s[1..], n)
  }

  // ---------------------------------------------------------------- which placeholders there are

  lemma {:induction false} NameLengthExactly(s: string, n: nat)
    requires n < |s| && !NameChar(s[n]) && forall i :: 0 <= i < n ==> NameChar(s[i])
    ensures NameLength(s) == n
  {
    if n > 0 { NameLengthExactly(s[1..], n - 1); }
  }

  lemma {:induction false} NameLengthMeans(s: string)
    ensures forall i :: 0 <= i < NameLength(s) ==> NameChar(s[i])
  {
    if s != "" && NameChar(s[0]) { NameLengthMeans(s[1..]); }
  }

  /** Between two percent signs there are only characters of names. */
  ghost predicate HasName(s: string) {
    exists i, j :: 0 <= i < j < |s| && s[i] == '%' && s[j] == '%' && forall k :: i < k < j ==> IsOfName(s[k])
  }

  predicate IsOfName(c: char) {
    c in "abcdefghijklmnopqrstuvwxyz" || c in "ABCDEFGHIJKLMNOPQRSTUVWXYZ" || c in "0123456789" || c in "_.-"
  }

  lemma NameCharExactly(c: char)
    ensures NameChar(c) <==> IsOfName(c)
  {}

  lemma StartsWithNameExactly(s: string)
    requires s != "" && s[0] == '%'
    ensures StartsWithName(s) <==>
      exists j :: 0 < j < |s| && s[j] == '%' && forall k :: 0 < k < j ==> NameChar(s[k])
  {
    NameLengthMeans(s[1..]);
    if j :| 0 < j < |s| && s[j] == '%' && forall k :: 0 < k < j ==> NameChar(s[k]) {
      NameLengthExactly(s[1..], j - 1);
    }
  }

  lemma HasRefOfParts(c: char, ts: Tokens, path: Path)
    ensures HasRef([Ref(path)] + ts) && HasRef(WithLetter(c, ts)) == HasRef(ts)
  {
    RefAt([Ref(path)] + ts, 0);
    if ts != [] && ts[0].Lit? {
      assert ts == [ts[0]] + ts[1..];
      assert WithLetter(c, ts)[1..] == ts[1..];
    } else {
      assert ([Lit([c])] + ts)[1..] == ts;
    }
  }

  lemma NameOneMore(s: string)
    requires s != ""
    ensures var here :=
        s[0] == '%' && exists j :: 0 < j < |s| && s[j] == '%' && forall k :: 0 < k < j ==> IsOfName(s[k]);
      HasName(s) <==> here || HasName(s[1..])
  {
    hide IsOfName;
    if i, j :| 0 <= i < j < |s| && s[i] == '%' && s[j] == '%' && forall k :: i < k < j ==> IsOfName(s[k]) {
      if i > 0 { Shorter(s, i, j); }
    }
    if HasName(s[1..]) {
      var i, j :| 0 <= i < j < |s[1..]| && s[1..][i] == '%' && s[1..][j] == '%'
        && forall k :: i < k < j ==> IsOfName(s[1..][k]);
      assert s[i + 1] == '%' && s[j + 1] == '%';
      forall k | i + 1 < k < j + 1 ensures IsOfName(s[k]) { assert IsOfName(s[1..][k - 1]); }
    }
  }

  lemma Shorter(s: string, i: nat, j: nat)
    requires 0 < i < j < |s| && s[i] == '%' && s[j] == '%' && forall k :: i < k < j ==> IsOfName(s[k])
    ensures HasName(s[1..])
  {
    hide IsOfName;
    assert s[1..][i - 1] == '%' && s[1..][j - 1] == '%';
    forall k | i - 1 < k < j - 1 ensures IsOfName(s[1..][k]) { assert IsOfName(s[k + 1]); }
  }

  /** A text has a placeholder if and only if there is a name between two of its percent signs. */
  lemma {:induction false} PlaceholderIff(s: string)
    ensures HasRef(Tokenised(s)) <==> HasName(s)
    decreases |s|
  {
    if s == "" {
      hide IsOfName;
    } else {
      TokenisedFirst(s);
      NameOneMore(s);
      forall c ensures NameChar(c) <==> IsOfName(c) { NameCharExactly(c); }
      if s[0] == '%' { StartsWithNameExactly(s); } else { hide NameLength; assert !StartsWithName(s); }
      hide *;
      var n := NameLength(s[1..]);
      if StartsWithName(s) {
        HasRefOfParts(s[0], Tokenised(s[n + 2..]), Split(s[1..n + 1], '.'));
      } else {
        PlaceholderIff(s[1..]);
        HasRefOfParts(s[0], Tokenised(s[1..]), []);
      }
    }
  }

  /** Texts between placeholders hold no percent sign and do not follow one another, and names have the
      characters of names, with dots between their parts. */
  predicate Tidy(ts: Tokens) {
    ts == [] || (TidyToken(ts[0]) && Tidy(ts[1..]) && (ts[0].Lit? && ts[1..] != [] ==> ts[1].Ref?))
  }

  predicate TidyToken(tok: Token) {
    match tok
    case Lit(text) => text != "" && '%' !in text
    case Ref(path) => path != [] && forall i :: 0 <= i < |path| ==> TidyPart(path[i])
  }

  predicate TidyPart(part: string) { forall i :: 0 <= i < |part| ==> NameChar(part[i]) && part[i] != '.' }

  lemma {:induction false} JoinedIsName(parts: seq<string>)
    requires forall i :: 0 <= i < |parts| ==> TidyPart(parts[i])
    ensures forall i :: 0 <= i < |JoinWith(parts, '.')| ==> NameChar(JoinWith(parts, '.')[i])
  {
    if |parts| > 1 { JoinedIsName(parts[..|parts|-1]); }
  }

  /** A placeholder at the start is cut off. */
  lemma NameIsCut(path: Path, rest: string)
    requires TidyToken(Ref(path))
    ensures Tokenised("%" + JoinWith(path, '.') + "%" + rest) == [Ref(path)] + Tokenised(rest)
  {
    var name := JoinWith(path, '.');
    var s := "%" + name + "%" + rest;
    JoinedIsName(path);
    SplitJoin(path, '.');
    hide JoinWith, Split;
    assert s[1..] == name + ("%" + rest);
    NameLengthExactly(s[1..], |name|);
    TokenisedFirst(s);
    hide Tokenised, NameLength;
    assert s[1..|name| + 1] == name && s[|name| + 2..] == rest;
  }

  /** So is a text without percent signs. */
  lemma {:induction false} TextIsCut(text: string, rest: string)
    requires text != "" && '%' !in text && (rest != "" ==> Tokenised(rest) != [] && Tokenised(rest)[0].Ref?)
    ensures Tokenised(text + rest) == [Lit(text)] + Tokenised(rest)
  {
    var s := text + rest;
    TokenisedFirst(s);
    assert !StartsWithName(s);
    assert s[1..] == text[1..] + rest;
    if |text| > 1 {
      TextIsCut(text[1..], rest);
      hide Tokenised, NameLength;
      assert ([Lit(text[1..])] + Tokenised(rest))[1..] == Tokenised(rest);
      assert [text[0]] + text[1..] == text;
    } else {
      assert text[1..] + rest == rest && text == [text[0]];
      assert rest == "" ==> Tokenised(rest) == [];
      hide Tokenised, NameLength;
    }
  }

  /** Tidy tokens are read back as they are written. */
  lemma {:induction false} TokenisedWritten(ts: Tokens)
    requires Tidy(ts)
    ensures Tokenised(Written(ts)) == ts
  {
    if ts != [] {
      TokenisedWritten(ts[1..]);
      var rest := Written(ts[1..]);
      assert ts == [ts[0]] + ts[1..];
      match ts[0] {
        case Ref(path) => NameIsCut(path, rest);
        case Lit(text) =>
          assert rest != "" ==> ts[1..] != [];
          TextIsCut(text, rest);
      }
    }
  }
}

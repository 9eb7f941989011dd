/** The formula of dates, members and chunks, such as `[ 19900101 [ fc0 [1-3 7] fc1 [Any] ] ]`:
    how it is parsed, and that it says what was written. */
module ChunkFormula {
  import opened Options
  import opened Decimals
  import opened Sequences
  import opened Splitting

  datatype Token = Open | Close | Word(text: string)

  /** What the brackets nest. */
  datatype Tree = Atom(text: string) | List(items: seq<Tree>)

  /** A member, which is a word in a well written formula, with its chunks. */
  datatype MemberJson = MemberJson(m: Tree, cs: seq<string>)

  datatype DateJson = DateJson(sd: string, ms: seq<MemberJson>)

  // ---------------------------------------------------------------- brackets

  /** The trees before the closing bracket, and what comes from there on. */
  function ParseItems(ts: seq<Token>): (r: Option<(seq<Tree>, seq<Token>)>)
    ensures r.Some? ==> |r.value.1| <= |ts| && r.value.1 != [] && r.value.1[0] == Close
    decreases |ts|
  {
    if ts == [] then None
    else
      match ts[0]
      case Close => Some(([], ts))
      case Word(text) =>
        (match ParseItems(ts[1..])
         case None => None
         case Some((items, rest)) => Some(([Atom(text)] + items, rest)))
      case Open =>
        (match ParseItems(ts[1..])
         case None => None
         case Some((inner, rest)) =>
           match ParseItems(rest[1..])
           case None => None
           case Some((items, rest')) => Some(([List(inner)] + items, rest')))
  }

  /** `nestedExpr`: the text starts with a bracket, and what follows the matching one is left. */
  function ParseNested(ts: seq<Token>): Option<seq<Tree>> {
    if ts == [] || ts[0] != Open then None
    else
      match ParseItems(ts[1..])
      case None => None
      case Some((items, _)) => Some(items)
  }

  function Written(t: Tree): seq<Token> {
    match t
    case Atom(text) => [Word(text)]
    case List(items) => [Open] + WrittenAll(items) + [Close]
  }

  function WrittenAll(items: seq<Tree>): seq<Token> {
    if items == [] then [] else Written(items[0]) + WrittenAll(items[1..])
  }

  lemma ParseWord(text: string, after: seq<Token>, items: seq<Tree>, rest: seq<Token>)
    requires ParseItems(after) == Some((items, rest))
    ensures ParseItems([Word(text)] + after) == Some(([Atom(text)] + items, rest))
  {
    assert ([Word(text)] + after)[1..] == after;
  }

  lemma ParseList(inside: seq<Token>, inner: seq<Tree>, after: seq<Token>, items: seq<Tree>, rest: seq<Token>)
    requires ParseItems(inside) == Some((inner, [Close] + after)) && ParseItems(after) == Some((items, rest))
    ensures ParseItems([Open] + inside) == Some(([List(inner)] + items, rest))
  {
    assert ([Open] + inside)[1..] == inside && ([Close] + after)[1..] == after;
  }

  lemma WrittenFirst(items: seq<Tree>, rest: seq<Token>)
    requires items != []
    ensures var after := WrittenAll(items[1..]) + rest;
      WrittenAll(items) + rest ==
        match items[0]
        case Atom(text) => [Word(text)] + after
        case List(inner) => [Open] + (WrittenAll(inner) + ([Close] + after))
  {
    var others := WrittenAll(items[1..]);
    var after := others + rest;
    Regroup(Written(items[0]), others, rest);
    if items[0].List? {
      var inner := WrittenAll(items[0].items);
      Regroup([Open] + inner, [Close], after);
      Regroup([Open], inner, [Close] + after);
    }
  }

  /** Any tree is read back as it was written. */
  lemma {:induction false} BracketsRoundTrip(items: seq<Tree>, rest: seq<Token>)
    requires rest != [] && rest[0] == Close
    ensures ParseItems(WrittenAll(items) + rest) == Some((items, rest))
    decreases items
  {
    if items == [] {
      assert WrittenAll(items) + rest == rest;
    } else {
      hide *;
      var after := WrittenAll(items[1..]) + rest;
      BracketsRoundTrip(items[1..], rest);
      WrittenFirst(items, rest);
      assert items == [items[0]] + items[1..];
      match items[0] {
        case Atom(text) => ParseWord(text, after, items[1..], rest);
        case List(inner) =>
          BracketsRoundTrip(inner, [Close] + after);
          ParseList(WrittenAll(inner) + ([Close] + after), inner, after, items[1..], rest);
      }
    }
  }

  // ---------------------------------------------------------------- chunks

  /** The chunks that one word stands for. Only the first two parts of a range count. */
  function ChunksOf(word: string): Option<seq<string>> {
    if '-' !in word then Some([word])
    else
      var parts := Split(word, '-');
      match (ParseNat(parts[0]), ParseNat(parts[1]))
      case (Some(lo), Some(hi)) => Some(Range(lo, hi))
      case _ => None
  }

  /** A word where a list is expected is taken letter by letter. */
  function Elements(t: Tree): seq<Tree> {
    match t
    case List(items) => items
    case Atom(text) => seq(|text|, i requires 0 <= i < |text| => Atom([text[i]]))
  }

  function Chunks(items: seq<Tree>): Option<seq<string>> {
    if items == [] then Some([])
    else
      match (Chunks(items[..|items|-1]), items[|items|-1])
      case (Some(before), Atom(word)) =>
        (match ChunksOf(word)
         case Some(cs) => Some(before + cs)
         case None => None)
      case _ => None
  }

  /** Members and their chunks alternate. */
  function Members(items: seq<Tree>): Option<seq<MemberJson>> {
    if items == [] then Some([])
    else if |items| == 1 then None
    else
      var n := |items| - 2;
      match (Members(items[..n]), Chunks(Elements(items[n + 1])))
      case (Some(before), Some(cs)) => Some(before + [MemberJson(items[n], cs)])
      case _ => None
  }

  /** A date with a range in parentheses. */
  predicate HasRange(date: string) {
    (exists i :: 0 < i < |date| && date[i] == '(' && '(' !in date[..i])
      && (exists i :: 0 < i < |date| && date[i] == ')' && ')' !in date[..i])
  }

  function Dates(items: seq<Tree>): Option<seq<DateJson>> {
    if items == [] then Some([])
    else if |items| == 1 then None
    else
      var n := |items| - 2;
      match (Dates(items[..n]), items[n], Members(Elements(items[n + 1])))
      case (Some(before), Atom(date), Some(ms)) => if HasRange(date) then None else Some(before + [DateJson(date, ms)])
      case _ => None
  }

  lemma OneMoreChunk(items: seq<Tree>, i: nat, word: string)
    requires i < |items| && items[i] == Atom(word)
    ensures Chunks(items[..0]) == Some([])
    ensures Chunks(items[..i + 1]) ==
      match (Chunks(items[..i]), ChunksOf(word))
      case (Some(before), Some(cs)) => Some(before + cs)
      case _ => None
  {
    assert items[..i + 1][..i] == items[..i];
    hide ChunksOf;
  }

  lemma NoChunks(items: seq<Tree>, i: nat)
    requires i < |items| && items[i].List?
    ensures Chunks(items[..i + 1]) == None
  {
    assert items[..i + 1][..i] == items[..i];
  }

  /** The chunks that a word with a dash stands for. */
  method RangeOf(word: string) returns (r: Option<seq<string>>)
    requires '-' in word
    ensures r == ChunksOf(word)
  {
    var parts := Split(word, '-');
    var lo, hi := ParseNat(parts[0]), ParseNat(parts[1]);
    if lo.None? || hi.None? { return None; }
    hide ParseNat, Split;
    var data := [];
    var count: int := lo.value;
    while count < hi.value + 1
      invariant lo.value <= count && (count <= hi.value + 1 || count == lo.value)
      invariant data == Range(lo.value, count - 1)
    {
      data := data + [Decimal(count)];
      count := count + 1;
    }
    assert Range(lo.value, hi.value) == data;
    r := Some(data);
  }

  /** `_get_chunks`. */
  method GetChunks(out: Tree) returns (r: Option<seq<string>>)
    ensures r == Chunks(Elements(out))
  {
    var items, data := Elements(out), [];
    assert Chunks(items[..0]) == Some([]);
    hide Chunks, ChunksOf, Elements;
    for i := 0 to |items|
      invariant Chunks(items[..i]) == Some(data)
    {
      if items[i].List? {
        NoChunks(items, i);
        ChunksStayNone(items, i + 1);
        return None;
      }
      var word := items[i].text;
      OneMoreChunk(items, i, word);
      if '-' in word {
        var numbers := RangeOf(word);
        if numbers.None? {
          ChunksStayNone(items, i + 1);
          return None;
        }
        data := data + numbers.value;
      } else {
        PlainWord(word);
        data := data + [word];
      }
    }
    assert items[..|items|] == items;
    r := Some(data);
  }

  lemma PlainWord(word: string)
    requires '-' !in word
    ensures ChunksOf(word) == Some([word])
  {}

  lemma {:induction false} ChunksStayNone(items: seq<Tree>, i: nat)
    requires i <= |items| && Chunks(items[..i]) == None
    ensures Chunks(items) == None
  {
    if i < |items| {
      assert items[..|items|-1][..i] == items[..i];
      ChunksStayNone(items[..|items|-1], i);
    } else {
      assert items[..i] == items;
    }
  }

  lemma {:induction false} OddMembersFail(items: seq<Tree>)
    requires |items| % 2 == 1
    ensures Members(items) == None
  {
    if |items| > 1 { OddMembersFail(items[..|items|-2]); }
  }

  lemma {:induction false} MembersStayNone(items: seq<Tree>, i: nat)
    requires i <= |items| && i % 2 == 0 && Members(items[..i]) == None
    ensures Members(items) == None
  {
    if i == |items| {
      assert items[..i] == items;
    } else if |items| % 2 == 1 {
      OddMembersFail(items);
    } else {
      assert items[..|items|-2][..i] == items[..i];
      MembersStayNone(items[..|items|-2], i);
    }
  }

  lemma NoMembers(items: seq<Tree>)
    ensures Members(items[..0]) == Some([]) && Dates(items[..0]) == Some([])
  {}

  lemma OneMoreMember(items: seq<Tree>, i: nat)
    requires i + 1 < |items| && i % 2 == 0
    ensures Members(items[..i + 2]) ==
      match (Members(items[..i]), Chunks(Elements(items[i + 1])))
      case (Some(before), Some(cs)) => Some(before + [MemberJson(items[i], cs)])
      case _ => None
  {
    assert items[..i + 2][..i] == items[..i];
    hide Elements, Chunks;
  }

  lemma OneMoreDate(items: seq<Tree>, i: nat)
    requires i + 1 < |items| && i % 2 == 0
    ensures Dates(items[..i + 2]) ==
      match (Dates(items[..i]), items[i], Members(Elements(items[i + 1])))
      case (Some(before), Atom(date), Some(ms)) => if HasRange(date) then None else Some(before + [DateJson(date, ms)])
      case _ => None
  {
    assert items[..i + 2][..i] == items[..i];
    hide Elements, Members, HasRange;
  }

  /** `_get_members`. */
  method GetMembers(out: Tree) returns (r: Option<seq<MemberJson>>)
    ensures r == Members(Elements(out))
  {
    var items := Elements(out);
    hide Elements, Chunks, Members;
    NoMembers(items);
    var data := [];
    for count := 0 to |items|
      invariant count % 2 == 0 ==> Members(items[..count]) == Some(data)
      invariant count % 2 == 1 ==> count < |items| && Members(items[..count + 1]) == Some(data)
    {
      if count % 2 == 0 {
        if count + 1 == |items| {
          OddMembersFail(items);
          return None;
        }
        var chunks := GetChunks(items[count + 1]);
        OneMoreMember(items, count);
        if chunks.None? {
          MembersStayNone(items, count + 2);
          return None;
        }
        data := data + [MemberJson(items[count], chunks.value)];
      }
    }
    assert items[..|items|] == items;
    r := Some(data);
  }

  lemma {:induction false} OddDatesFail(items: seq<Tree>)
    requires |items| % 2 == 1
    ensures Dates(items) == None
  {
    if |items| > 1 { OddDatesFail(items[..|items|-2]); }
  }

  lemma {:induction false} DatesStayNone(items: seq<Tree>, i: nat)
    requires i <= |items| && i % 2 == 0 && Dates(items[..i]) == None
    ensures Dates(items) == None
  {
    if i == |items| {
      assert items[..i] == items;
    } else if |items| % 2 == 1 {
      OddDatesFail(items);
    } else {
      assert items[..|items|-2][..i] == items[..i];
      DatesStayNone(items[..|items|-2], i);
    }
  }

  method GetDates(items: seq<Tree>) returns (r: Option<seq<DateJson>>)
    ensures r == Dates(items)
  {
    hide Elements, Members, Dates, HasRange;
    NoMembers(items);
    var data := [];
    for count := 0 to |items|
      invariant count % 2 == 0 ==> Dates(items[..count]) == Some(data)
      invariant count % 2 == 1 ==> count < |items| && Dates(items[..count + 1]) == Some(data)
    {
      if count % 2 == 0 {
        if count + 1 == |items| {
          OddDatesFail(items);
          return None;
        }
        OneMoreDate(items, count);
        var members := GetMembers(items[count + 1]);
        if items[count].List? || HasRange(items[count].text) || members.None? {
          DatesStayNone(items, count + 2);
          return None;
        }
        data := data + [DateJson(items[count].text, members.value)];
      }
    }
    assert items[..|items|] == items;
    r := Some(data);
  }

  /** `_create_json`. */
  method CreateJson(text: seq<Token>) returns (r: Option<seq<DateJson>>)
    ensures r == Parsed(text)
  {
    var out := ParseNested(text);
    if out.None? { return None; }
    r := GetDates(out.value);
  }

  function Parsed(text: seq<Token>): Option<seq<DateJson>> {
    match ParseNested(text)
    case None => None
    case Some(items) => Dates(items)
  }

  // ---------------------------------------------------------------- which formulas parse

  predicate ChunkItem(t: Tree) { t.Atom? && ChunksOf(t.text).Some? }

  predicate AllChunks(items: seq<Tree>) { forall i :: 0 <= i < |items| ==> ChunkItem(items[i]) }

  predicate AllMembers(items: seq<Tree>) {
    |items| % 2 == 0 && forall i :: 0 <= i < |items| && i % 2 == 1 ==> AllChunks(Elements(items[i]))
  }

  predicate DateItem(t: Tree) { t.Atom? && !HasRange(t.text) }

  /** Dates and lists of members alternate, and in those members and lists of chunks. */
  predicate AllDates(items: seq<Tree>) {
    && |items| % 2 == 0
    && forall i :: 0 <= i < |items| ==> if i % 2 == 0 then DateItem(items[i]) else AllMembers(Elements(items[i]))
  }

  lemma {:induction false} ChunksParse(items: seq<Tree>)
    ensures Chunks(items).Some? <==> AllChunks(items)
  {
    if items != [] {
      var n := |items| - 1;
      ChunksParse(items[..n]);
      if AllChunks(items[..n]) && ChunkItem(items[n]) {
        forall i | 0 <= i < |items| ensures ChunkItem(items[i]) { if i < n { assert ChunkItem(items[..n][i]); } }
      }
      if AllChunks(items) { assert ChunkItem(items[n]); }
    }
  }

  lemma {:induction false} MembersParse(items: seq<Tree>)
    ensures Members(items).Some? <==> AllMembers(items)
  {
    if |items| >= 2 {
      var n := |items| - 2;
      MembersParse(items[..n]);
      ChunksParse(Elements(items[n + 1]));
      AllMembersOneMore(items);
      hide Elements, AllChunks, AllMembers, Chunks;
    }
  }

  lemma AllMembersOneMore(items: seq<Tree>)
    requires |items| >= 2
    ensures var n := |items| - 2; AllMembers(items) <==> AllMembers(items[..n]) && AllChunks(Elements(items[n + 1]))
  {
    var n := |items| - 2;
    hide Elements, AllChunks;
    forall i | 0 <= i < n ensures items[..n][i] == items[i] {}
  }

  lemma AllDatesOneMore(items: seq<Tree>)
    requires |items| >= 2
    ensures var n := |items| - 2;
      AllDates(items) <==> AllDates(items[..n]) && DateItem(items[n]) && AllMembers(Elements(items[n + 1]))
  {
    var n := |items| - 2;
    hide Elements, AllMembers, DateItem;
    forall i | 0 <= i < n ensures items[..n][i] == items[i] {}
  }

  /** A formula parses exactly when it is well formed. */
  lemma {:induction false} DatesParse(items: seq<Tree>)
    ensures Dates(items).Some? <==> AllDates(items)
  {
    if |items| >= 2 {
      var n := |items| - 2;
      DatesParse(items[..n]);
      MembersParse(Elements(items[n + 1]));
      AllDatesOneMore(items);
      hide Elements, AllMembers, HasRange, AllDates, Members;
    }
  }

  // ---------------------------------------------------------------- what was written

  datatype Chunk = Plain(text: string) | Span(lo: nat, hi: nat)

  datatype MemberSpec = MemberSpec(member: string, chunks: seq<Chunk>)

  datatype DateSpec = DateSpec(date: string, members: seq<MemberSpec>)

  function ChunkWord(c: Chunk): string {
    match c
    case Plain(text) => text
    case Span(lo, hi) => Decimal(lo) + ['-'] + Decimal(hi)
  }

  function ChunkTrees(cs: seq<Chunk>): seq<Tree> {
    if cs == [] then [] else ChunkTrees(cs[..|cs|-1]) + [Atom(ChunkWord(cs[|cs|-1]))]
  }

  function MemberTrees(ms: seq<MemberSpec>): seq<Tree> {
    if ms == [] then []
    else MemberTrees(ms[..|ms|-1]) + [Atom(ms[|ms|-1].member), List(ChunkTrees(ms[|ms|-1].chunks))]
  }

  function DateTrees(ds: seq<DateSpec>): seq<Tree> {
    if ds == [] then []
    else DateTrees(ds[..|ds|-1]) + [Atom(ds[|ds|-1].date), List(MemberTrees(ds[|ds|-1].members))]
  }

  function Printed(ds: seq<DateSpec>): seq<Token> { [Open] + WrittenAll(DateTrees(ds)) + [Close] }

  function Expanded(cs: seq<Chunk>): seq<string> {
    if cs == [] then []
    else
      Expanded(cs[..|cs|-1]) +
      match cs[|cs|-1]
      case Plain(text) => [text]
      case Span(lo, hi) => Range(lo, hi)
  }

  function ExpandedMembers(ms: seq<MemberSpec>): seq<MemberJson> {
    if ms == [] then []
    else ExpandedMembers(ms[..|ms|-1]) + [MemberJson(Atom(ms[|ms|-1].member), Expanded(ms[|ms|-1].chunks))]
  }

  function ExpandedDates(ds: seq<DateSpec>): seq<DateJson> {
    if ds == [] then []
    else ExpandedDates(ds[..|ds|-1]) + [DateJson(ds[|ds|-1].date, ExpandedMembers(ds[|ds|-1].members))]
  }

  /** Plain chunks have no dash, and dates no range in parentheses. */
  predicate PlainChunks(cs: seq<Chunk>) { forall c :: c in cs && c.Plain? ==> '-' !in c.text }

  predicate PlainMembers(ms: seq<MemberSpec>) { forall m :: m in ms ==> PlainChunks(m.chunks) }

  predicate PlainDates(ds: seq<DateSpec>) { forall d :: d in ds ==> !HasRange(d.date) && PlainMembers(d.members) }

  lemma SpanParses(lo: nat, hi: nat)
    ensures ChunksOf(ChunkWord(Span(lo, hi))) == Some(Range(lo, hi))
  {
    ParseDigits(lo);
    ParseDigits(hi);
    SplitTwo(Decimal(lo), '-', Decimal(hi));
  }

  lemma {:induction false} ChunksRoundTrip(cs: seq<Chunk>)
    requires PlainChunks(cs)
    ensures Chunks(ChunkTrees(cs)) == Some(Expanded(cs))
  {
    if cs != [] {
      var init, last := cs[..|cs|-1], cs[|cs|-1];
      ChunksRoundTrip(init);
      if last.Span? { SpanParses(last.lo, last.hi); }
      assert ChunkTrees(cs)[..|ChunkTrees(cs)|-1] == ChunkTrees(init);
    }
  }

  lemma {:induction false} MembersRoundTrip(ms: seq<MemberSpec>)
    requires PlainMembers(ms)
    ensures Members(MemberTrees(ms)) == Some(ExpandedMembers(ms))
  {
    if ms != [] {
      var init, last := ms[..|ms|-1], ms[|ms|-1];
      MembersRoundTrip(init);
      ChunksRoundTrip(last.chunks);
      assert MemberTrees(ms)[..|MemberTrees(ms)|-2] == MemberTrees(init);
    }
  }

  lemma {:induction false} DatesRoundTrip(ds: seq<DateSpec>)
    requires PlainDates(ds)
    ensures Dates(DateTrees(ds)) == Some(ExpandedDates(ds))
  {
    if ds != [] {
      var init, last := ds[..|ds|-1], ds[|ds|-1];
      DatesRoundTrip(init);
      MembersRoundTrip(last.members);
      assert DateTrees(ds)[..|DateTrees(ds)|-2] == DateTrees(init);
    }
  }

  /** A formula says what was written, with every range replaced by its numbers in order. */
  lemma FormulaRoundTrip(ds: seq<DateSpec>, rest: seq<Token>)
    requires PlainDates(ds)
    ensures Parsed(Printed(ds) + rest) == Some(ExpandedDates(ds))
  {
    var items := DateTrees(ds);
    BracketsRoundTrip(items, [Close] + rest);
    assert (Printed(ds) + rest)[1..] == WrittenAll(items) + ([Close] + rest);
    DatesRoundTrip(ds);
  }

  // ---------------------------------------------------------------- words of other forms

  /** Of a word with dashes only the first two parts count, and both must be numerals. */
  lemma DashesMean(word: string, a: string, b: string, rest: string)
    requires '-' !in a && '-' !in b && (rest == [] || rest[0] == '-') && word == a + ['-'] + b + rest
    ensures ChunksOf(word).Some? <==> ParseNat(a).Some? && ParseNat(b).Some?
    ensures forall lo: nat, hi: nat :: a == Decimal(lo) && b == Decimal(hi) ==>
      ChunksOf(word).Some? && forall n: int :: Decimal(n) in ChunksOf(word).value <==> lo <= n <= hi
  {
    hide *;
    FirstTwoParts(a, b, rest);
    DashesParse(word, a, b);
    forall lo: nat, hi: nat | a == Decimal(lo) && b == Decimal(hi)
      ensures ChunksOf(word).Some? && forall n: int :: Decimal(n) in ChunksOf(word).value <==> lo <= n <= hi
    {
      NumeralsParse(lo);
      NumeralsParse(hi);
      forall n: int ensures Decimal(n) in Range(lo, hi) <==> lo <= n <= hi { RangeExactly(lo, hi, n); }
    }
  }

  lemma NumeralsParse(n: nat)
    ensures ParseNat(Decimal(n)) == Some(n)
  {
    ParseDigits(n);
  }

  lemma FirstTwoParts(a: string, b: string, rest: string)
    requires '-' !in a && '-' !in b && (rest == [] || rest[0] == '-')
    ensures var word := a + ['-'] + b + rest; '-' in word && Split(word, '-')[..2] == [a, b]
  {
    SplitTwo(a, '-', b);
    var both := a + ['-'] + b;
    assert both[|a|] == '-';
    if rest == [] {
      assert both + rest == both;
    } else {
      SplitBoth(both, '-', rest[1..]);
      assert both + rest == both + ['-'] + rest[1..];
    }
    hide Split;
    assert (both + rest)[|a|] == '-';
  }

  lemma DashesParse(word: string, a: string, b: string)
    requires '-' in word && Split(word, '-')[..2] == [a, b]
    ensures ChunksOf(word) ==
      match (ParseNat(a), ParseNat(b))
      case (Some(lo), Some(hi)) => Some(Range(lo, hi))
      case _ => None
  {
    var parts := Split(word, '-');
    assert parts[0] == parts[..2][0] && parts[1] == parts[..2][1];
    hide Split, ParseNat, Range;
  }

  /** A word without dashes in place of a list of chunks stands for its letters. */
  lemma {:induction false} LettersAreChunks(text: string)
    requires '-' !in text
    ensures var r := Chunks(Elements(Atom(text)));
      r.Some? && |r.value| == |text| && forall i :: 0 <= i < |text| ==> r.value[i] == [text[i]]
  {
    if text != [] {
      var n := |text| - 1;
      LettersAreChunks(text[..n]);
      assert Elements(Atom(text))[..n] == Elements(Atom(text[..n]));
      assert '-' !in [text[n]];
      PlainWord([text[n]]);
      hide ChunksOf;
    }
  }

  /** A date has a range in parentheses if it has both and starts with neither. */
  lemma HasRangeExactly(date: string)
    ensures HasRange(date) <==> '(' in date && ')' in date && date[0] != '(' && date[0] != ')'
  {
    if '(' in date { FirstPlace(date, '('); }
    if ')' in date { FirstPlace(date, ')'); }
  }

  lemma {:induction false} FirstPlace(s: string, c: char)
    requires c in s
    ensures exists i :: 0 <= i < |s| && s[i] == c && c !in s[..i]
  {
    var n := |s| - 1;
    if c in s[..n] {
      FirstPlace(s[..n], c);
      var i :| 0 <= i < n && s[..n][i] == c && c !in s[..n][..i];
      assert s[..n][..i] == s[..i];
    } else {
      assert s == s[..n] + [s[n]];
    }
  }
}

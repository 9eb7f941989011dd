/** The selection of jobs by sections and splits, and by dates, members and chunks. Texts are in
    upper case, as the filter converts them. */
module JobFilter {
  import opened Options
  import opened Decimals

  /** A chunk 0 counts as none. */
  type ChunkNumber = n: int | n != 0 witness 1

  datatype Job = Job(name: string, section: string, date: Option<string>, member: Option<string>,
                     chunk: Option<ChunkNumber>, synchronize: bool, splits: Option<int>, split: int)

  /** A section, whether its brackets say "any" or nothing, and the words between them. */
  datatype SectionEntry = SectionEntry(section: string, any: bool, words: seq<SplitWord>)

  datatype SplitWord = Plain(text: string) | Splits(lo: int, hi: int)

  datatype DateEntry = DateEntry(date: string, members: seq<MemberEntry>)

  datatype MemberEntry = MemberEntry(member: string, chunks: seq<string>)

  /** The dates, members and chunks of the experiment. */
  datatype Lists = Lists(dates: set<string>, members: set<string>, chunks: seq<int>)

  // ---------------------------------------------------------------- what the entries mean

  predicate Undivided(j: Job) { j.splits.None? || j.splits.value < 2 }

  /** The job is of the section and, if it has splits, is one of those named. */
  predicate InSection(j: Job, e: SectionEntry) {
    && (e.section == "ANY" || j.section == e.section)
    && (Undivided(j) || NoneNamed(e) || exists w :: w in e.words && Covers(w, j.split))
  }

  predicate NoneNamed(e: SectionEntry) {
    e.any || Plain("ANY") in e.words || forall w :: w in e.words ==> w.Splits? && w.lo > w.hi
  }

  predicate Covers(w: SplitWord, split: int) {
    match w
    case Plain(text) => text == Decimal(split)
    case Splits(lo, hi) => lo <= split <= hi
  }

  predicate InSections(j: Job, es: seq<SectionEntry>) { exists e :: e in es && InSection(j, e) }

  /** A name selects itself; "ANY" selects the names of the experiment. */
  predicate Names(entry: string, listed: set<string>, name: string) {
    if entry == "ANY" then name in listed else name == entry
  }

  predicate OfDate(j: Job, d: DateEntry, l: Lists) { j.date.Some? ==> Names(d.date, l.dates, j.date.value) }

  predicate OfMember(j: Job, m: MemberEntry, l: Lists) { j.member.Some? ==> Names(m.member, l.members, j.member.value) }

  /** The last of the chunks tells whether any is meant. */
  predicate OfChunk(j: Job, m: MemberEntry, l: Lists)
    requires m.chunks != []
  {
    j.chunk.None? || j.synchronize ||
    if m.chunks[|m.chunks|-1] == "ANY" then j.chunk.value in l.chunks else Decimal(j.chunk.value) in m.chunks
  }

  predicate Complete(ds: seq<DateEntry>) { forall d :: d in ds ==> forall m :: m in d.members ==> m.chunks != [] }

  /** The job matches a member entry of a date entry. */
  predicate Selected(j: Job, ds: seq<DateEntry>, l: Lists)
    requires Complete(ds)
  {
    exists d, m :: d in ds && m in d.members && OfDate(j, d, l) && OfMember(j, m, l) && OfChunk(j, m, l)
  }

  // ---------------------------------------------------------------- sections and splits

  /** The splits named by the words, as texts. */
  function Texts(words: seq<SplitWord>): seq<string> {
    if words == [] then [] else Texts(words[..|words|-1]) + TextsOf(words[|words|-1])
  }

  function TextsOf(w: SplitWord): seq<string> {
    match w
    case Plain(text) => [text]
    case Splits(lo, hi) => Range(lo, hi)
  }

  lemma {:induction false} AnyIsNoNumeral(lo: int, hi: int)
    ensures "ANY" !in Range(lo, hi)
    decreases hi - lo
  {
    if lo <= hi {
      AnyIsNoNumeral(lo, hi - 1);
      ParseDigits(if hi < 0 then -hi else hi);
      assert Decimal(hi)[0] == '-' || IsDigit(Decimal(hi)[0]);
    }
  }

  lemma TextsOfExactly(w: SplitWord, split: int)
    ensures Decimal(split) in TextsOf(w) <==> Covers(w, split)
    ensures TextsOf(w) == [] <==> w.Splits? && w.lo > w.hi
    ensures "ANY" in TextsOf(w) <==> w == Plain("ANY")
  {
    if w.Splits? {
      RangeExactly(w.lo, w.hi, split);
      AnyIsNoNumeral(w.lo, w.hi);
    }
  }

  lemma {:induction false} TextsExactly(words: seq<SplitWord>, split: int)
    ensures Decimal(split) in Texts(words) <==> exists w :: w in words && Covers(w, split)
    ensures Texts(words) == [] <==> forall w :: w in words ==> w.Splits? && w.lo > w.hi
    ensures "ANY" in Texts(words) <==> Plain("ANY") in words
  {
    if words != [] {
      var init, last := words[..|words|-1], words[|words|-1];
      assert words == init + [last];
      TextsExactly(init, split);
      TextsOfExactly(last, split);
      hide TextsOf, Covers;
      assert Texts(words) == Texts(init) + TextsOf(last);
    }
  }

  /** `_split_match`. */
  predicate SplitMatch(j: Job, splits: seq<string>) {
    "ANY" in splits || j.splits.None? || j.splits.value < 2 || splits == [] || Decimal(j.split) in splits
  }

  method SplitsOf(e: SectionEntry) returns (splits: seq<string>)
    ensures splits == if e.any || Texts(e.words) == [] then ["ANY"] else Texts(e.words)
  {
    splits := [];
    if e.any {
      splits := ["ANY"];
    } else {
      for i := 0 to |e.words|
        invariant splits == Texts(e.words[..i])
      {
        assert e.words[..i + 1][..i] == e.words[..i];
        match e.words[i] {
          case Plain(text) => splits := splits + [text];
          case Splits(lo, hi) => splits := splits + Range(lo, hi);
        }
      }
      assert e.words[..|e.words|] == e.words;
    }
    if splits == [] { splits := ["ANY"]; }
  }

  lemma SectionMatch(j: Job, e: SectionEntry, splits: seq<string>)
    requires splits == if e.any || Texts(e.words) == [] then ["ANY"] else Texts(e.words)
    ensures (e.section == "ANY" || j.section == e.section) && SplitMatch(j, splits) <==> InSection(j, e)
  {
    TextsExactly(e.words, j.split);
    hide Texts, Covers;
  }

  lemma {:induction false} FullSet(jobs: seq<Job>, s: set<Job>)
    requires (forall j :: j in s ==> j in jobs) && |s| == |jobs|
    ensures forall j :: j in jobs ==> j in s
  {
    if jobs != [] {
      var init, last := jobs[..|jobs|-1], jobs[|jobs|-1];
      assert jobs == init + [last];
      FitsInto(init, s - {last});
      FullSet(init, s - {last});
    }
  }

  lemma {:induction false} FitsInto(jobs: seq<Job>, s: set<Job>)
    requires forall j :: j in s ==> j in jobs
    ensures |s| <= |jobs|
  {
    if jobs != [] { FitsInto(jobs[..|jobs|-1], s - {jobs[|jobs|-1]}); }
  }

  /** `_filter_sections_splits`. Stopping once every job matches loses nothing. */
  method FilterSectionsSplits(es: seq<SectionEntry>, jobs: seq<Job>) returns (matching: set<Job>)
    ensures matching == set j | j in jobs && InSections(j, es)
  {
    hide InSections, InSection, SplitMatch, Texts;
    matching := {};
    var i := 0;
    NoneYet(jobs);
    while i < |es|
      invariant 0 <= i <= |es| && matching == set j | j in jobs && InSections(j, es[..i])
    {
      var e := es[i];
      var splits := SplitsOf(e);
      assert es[..i + 1] == es[..i] + [e];
      forall j: Job
        ensures InSections(j, es[..i + 1]) <==> InSections(j, es[..i]) || InSection(j, e)
        ensures (e.section == "ANY" || j.section == e.section) && SplitMatch(j, splits) <==> InSection(j, e)
      {
        InOneMore(j, es[..i], e);
        SectionMatch(j, e, splits);
      }
      if e.section == "ANY" {
        matching := matching + set j | j in jobs && SplitMatch(j, splits);
      } else {
        matching := matching + set j | j in jobs && j.section == e.section && SplitMatch(j, splits);
      }
      i := i + 1;
      if |matching| == |jobs| {
        FullSet(jobs, matching);
        StaysIn(jobs, es, i);
        return;
      }
    }
    assert es[..|es|] == es;
  }

  lemma NoneYet(jobs: seq<Job>)
    ensures (set j | j in jobs && InSections(j, [])) == {}
  {}

  lemma InOneMore(j: Job, es: seq<SectionEntry>, e: SectionEntry)
    ensures InSections(j, es + [e]) <==> InSections(j, es) || InSection(j, e)
  {
    hide InSection;
    if InSection(j, e) { assert e in es + [e]; }
    if f :| f in es && InSection(j, f) { assert f in es + [e]; }
  }

  lemma StaysIn(jobs: seq<Job>, es: seq<SectionEntry>, i: nat)
    requires i <= |es|
    ensures forall j :: InSections(j, es[..i]) ==> InSections(j, es)
  {
    hide InSection;
  }

  // ---------------------------------------------------------------- the names of the first pass

  /** What the first pass gathers: "ANY" replaces what was gathered before. */
  function Gathered(entries: seq<string>, listed: set<string>): set<string> {
    if entries == [] then {}
    else
      var last := entries[|entries|-1];
      if last == "ANY" then listed else Gathered(entries[..|entries|-1], listed) + {last}
  }

  predicate LaterAny(entries: seq<string>, i: nat) { exists k :: i < k < |entries| && entries[k] == "ANY" }

  /** A name is gathered if it is listed and some entry is "ANY", or if no "ANY" follows its own
      entry. */
  predicate Survives(entries: seq<string>, listed: set<string>, name: string) {
    || ("ANY" in entries && name in listed)
    || exists i :: 0 <= i < |entries| && entries[i] == name && name != "ANY" && !LaterAny(entries, i)
  }

  lemma {:induction false} GatheredExactly(entries: seq<string>, listed: set<string>, name: string)
    ensures name in Gathered(entries, listed) <==> Survives(entries, listed, name)
  {
    if entries != [] {
      var n := |entries| - 1;
      var init, last := entries[..n], entries[n];
      GatheredExactly(init, listed, name);
      assert entries == init + [last];
      forall i | 0 <= i < n ensures LaterAny(entries, i) <==> LaterAny(init, i) || last == "ANY" {
        if last == "ANY" { assert entries[n] == "ANY"; }
        if LaterAny(init, i) { var k :| i < k < |init| && init[k] == "ANY"; assert entries[k] == "ANY"; }
      }
      if Survives(entries, listed, name) && !("ANY" in entries && name in listed) {
        var i :| 0 <= i < |entries| && entries[i] == name && !LaterAny(entries, i);
        if i < n { assert init[i] == name && !LaterAny(init, i); }
      }
      if i :| 0 <= i < n && init[i] == name && !LaterAny(init, i) && last != "ANY" {
        assert entries[i] == name && !LaterAny(entries, i);
      }
      if last == name { assert entries[n] == name && !LaterAny(entries, n); }
    }
  }

  function DateNames(ds: seq<DateEntry>): seq<string> {
    if ds == [] then [] else DateNames(ds[..|ds|-1]) + [ds[|ds|-1].date]
  }

  function NamesOf(ms: seq<MemberEntry>): seq<string> {
    if ms == [] then [] else NamesOf(ms[..|ms|-1]) + [ms[|ms|-1].member]
  }

  function MemberNames(ds: seq<DateEntry>): seq<string> {
    if ds == [] then [] else MemberNames(ds[..|ds|-1]) + NamesOf(ds[|ds|-1].members)
  }

  lemma GatheredOneMore(entries: seq<string>, entry: string, listed: set<string>)
    ensures Gathered(entries + [entry], listed)
      == if entry == "ANY" then listed else Gathered(entries, listed) + {entry}
  {
    assert (entries + [entry])[..|entries|] == entries;
  }

  /** The first pass keeps the jobs whose date and member have been gathered. */
  predicate Unpruned(j: Job, ds: seq<DateEntry>, l: Lists) {
    && (j.date.Some? ==> j.date.value in Gathered(DateNames(ds), l.dates))
    && (j.member.Some? ==> j.member.value in Gathered(MemberNames(ds), l.members))
  }

  method Prune(ds: seq<DateEntry>, l: Lists, jobs: set<Job>) returns (kept: set<Job>)
    ensures kept == set j | j in jobs && Unpruned(j, ds, l)
  {
    var selectedDates, selectedMembers := {}, {};
    for i := 0 to |ds|
      invariant selectedDates == Gathered(DateNames(ds[..i]), l.dates)
      invariant selectedMembers == Gathered(MemberNames(ds[..i]), l.members)
    {
      var d := ds[i];
      assert ds[..i + 1][..i] == ds[..i];
      GatheredOneMore(DateNames(ds[..i]), d.date, l.dates);
      if d.date == "ANY" { selectedDates := l.dates; } else { selectedDates := selectedDates + {d.date}; }
      ghost var before := MemberNames(ds[..i]);
      assert before + [] == before;
      for k := 0 to |d.members|
        invariant selectedMembers == Gathered(before + NamesOf(d.members[..k]), l.members)
      {
        var m := d.members[k];
        assert d.members[..k + 1][..k] == d.members[..k];
        assert before + NamesOf(d.members[..k + 1]) == before + NamesOf(d.members[..k]) + [m.member];
        GatheredOneMore(before + NamesOf(d.members[..k]), m.member, l.members);
        if m.member == "ANY" { selectedMembers := l.members; } else { selectedMembers := selectedMembers + {m.member}; }
      }
      assert d.members[..|d.members|] == d.members;
    }
    assert ds[..|ds|] == ds;
    kept := set j | j in jobs && (j.date.Some? ==> j.date.value in selectedDates)
                              && (j.member.Some? ==> j.member.value in selectedMembers);
  }

  // ---------------------------------------------------------------- the second pass

  function Numerals(ns: seq<int>): seq<string> { seq(|ns|, i requires 0 <= i < |ns| => Decimal(ns[i])) }

  lemma NumeralsExactly(ns: seq<int>, n: int)
    ensures Decimal(n) in Numerals(ns) <==> n in ns
  {
    if n in ns {
      var i :| 0 <= i < |ns| && ns[i] == n;
      assert Numerals(ns)[i] == Decimal(n);
    }
    if Decimal(n) in Numerals(ns) {
      var i :| 0 <= i < |ns| && Numerals(ns)[i] == Decimal(n);
      DecimalInjective(ns[i], n);
    }
  }

  predicate Matches(j: Job, d: DateEntry, m: MemberEntry, l: Lists)
    requires m.chunks != []
  {
    OfDate(j, d, l) && OfMember(j, m, l) && OfChunk(j, m, l)
  }

  /** The jobs that match one member entry of a date entry. */
  method MatchOne(d: DateEntry, m: MemberEntry, l: Lists, jobs: set<Job>) returns (r: set<Job>)
    requires m.chunks != []
    ensures r == set j | j in jobs && Matches(j, d, m, l)
  {
    var selectedDates := if d.date == "ANY" then l.dates else {d.date};
    var selectedMembers := if m.member == "ANY" then l.members else {m.member};
    var selectedChunks := if m.chunks[|m.chunks|-1] != "ANY" then m.chunks else Numerals(l.chunks);
    hide Numerals, Matches, Decimal;
    forall j: Job
      ensures Matches(j, d, m, l) <==>
        && (j.date.Some? ==> j.date.value in selectedDates)
        && (j.member.Some? ==> j.member.value in selectedMembers)
        && (j.chunk.None? || j.synchronize || Decimal(j.chunk.value) in selectedChunks)
    {
      MatchesExactly(j, d, m, l);
    }
    r := set j | j in jobs
      && (j.date.Some? ==> j.date.value in selectedDates)
      && (j.member.Some? ==> j.member.value in selectedMembers)
      && (j.chunk.None? || j.synchronize || Decimal(j.chunk.value) in selectedChunks);
  }

  lemma MatchesExactly(j: Job, d: DateEntry, m: MemberEntry, l: Lists)
    requires m.chunks != []
    ensures Matches(j, d, m, l) <==>
      && (j.date.Some? ==> j.date.value in if d.date == "ANY" then l.dates else {d.date})
      && (j.member.Some? ==> j.member.value in if m.member == "ANY" then l.members else {m.member})
      && (j.chunk.None? || j.synchronize
          || Decimal(j.chunk.value) in if m.chunks[|m.chunks|-1] != "ANY" then m.chunks else Numerals(l.chunks))
  {
    if j.chunk.Some? { NumeralsExactly(l.chunks, j.chunk.value); }
    hide Numerals, Decimal;
  }

  predicate SelectedBy(j: Job, d: DateEntry, l: Lists) {
    exists m :: m in d.members && m.chunks != [] && Matches(j, d, m, l)
  }

  /** The jobs that match some of the member entries. */
  method MatchMembers(d: DateEntry, l: Lists, jobs: set<Job>) returns (r: Option<set<Job>>)
    ensures r.Some? <==> forall m :: m in d.members ==> m.chunks != []
    ensures r.Some? ==> r.value == set j | j in jobs && SelectedBy(j, d, l)
  {
    hide Matches;
    var found := {};
    for i := 0 to |d.members|
      invariant forall m :: m in d.members[..i] ==> m.chunks != []
      invariant found == set j | j in jobs && exists m :: m in d.members[..i] && m.chunks != [] && Matches(j, d, m, l)
    {
      var m := d.members[i];
      if m.chunks == [] { return None; }
      var more := MatchOne(d, m, l, jobs);
      assert d.members[..i + 1] == d.members[..i] + [m];
      found := found + more;
    }
    assert d.members[..|d.members|] == d.members;
    r := Some(found);
  }

  lemma SelectedIs(j: Job, ds: seq<DateEntry>, l: Lists)
    requires Complete(ds)
    ensures Selected(j, ds, l) <==> exists d :: d in ds && SelectedBy(j, d, l)
  {
    hide OfDate, OfMember, OfChunk;
    if d, m :| d in ds && m in d.members && OfDate(j, d, l) && OfMember(j, m, l) && OfChunk(j, m, l) {
      assert Matches(j, d, m, l) && SelectedBy(j, d, l);
    }
  }

  /** `_filter_chunks`. It fails when a member has an empty list of chunks. */
  method FilterChunks(ds: seq<DateEntry>, l: Lists, jobs: set<Job>) returns (r: Option<set<Job>>)
    ensures r.Some? <==> Complete(ds)
    ensures r.Some? ==> r.value == set j | j in jobs && Unpruned(j, ds, l) && Selected(j, ds, l)
  {
    var kept := Prune(ds, l, jobs);
    hide Unpruned, Matches, SelectedBy;
    var found := {};
    for i := 0 to |ds|
      invariant Complete(ds[..i])
      invariant found == set j | j in kept && exists d :: d in ds[..i] && SelectedBy(j, d, l)
    {
      var more := MatchMembers(ds[i], l, kept);
      if more.None? { return None; }
      assert ds[..i + 1] == ds[..i] + [ds[i]];
      found := found + more.value;
    }
    assert ds[..|ds|] == ds;
    forall j: Job ensures Selected(j, ds, l) <==> exists d :: d in ds && SelectedBy(j, d, l) { SelectedIs(j, ds, l); }
    r := Some(found);
  }

  /** `filter_jobs_by_chunks_splits`. Without sections, all the jobs are considered. */
  method FilterJobsByChunksSplits(ds: seq<DateEntry>, es: Option<seq<SectionEntry>>, l: Lists, jobs: seq<Job>)
    returns (r: Option<set<Job>>)
    ensures r.Some? <==> Complete(ds)
    ensures r.Some? ==> r.value == Filtered(ds, es, l, jobs)
    ensures r.Some? && (forall j :: j in jobs ==> Listed(j, l)) ==>
      r.value == set j | j in jobs && Matching(j, ds, es, l)
  {
    var matching := set j | j in jobs;
    if es.Some? { matching := FilterSectionsSplits(es.value, jobs); }
    r := FilterChunks(ds, l, matching);
    if r.Some? {
      forall j | j in jobs && Listed(j, l) && Selected(j, ds, l) ensures Unpruned(j, ds, l) {
        ListedIsUnpruned(j, ds, l);
      }
    }
    hide Selected, Unpruned, InSections, Listed;
  }

  // ---------------------------------------------------------------- what the result means

  /** The simple meaning of a filter. */
  predicate Matching(j: Job, ds: seq<DateEntry>, es: Option<seq<SectionEntry>>, l: Lists)
    requires Complete(ds)
  {
    (es.Some? ==> InSections(j, es.value)) && Selected(j, ds, l)
  }

  /** The date and the member of the job are those of the experiment. */
  predicate Listed(j: Job, l: Lists) {
    (j.date.Some? ==> j.date.value in l.dates) && (j.member.Some? ==> j.member.value in l.members)
  }

  lemma {:induction false} DateNamesExactly(ds: seq<DateEntry>)
    ensures |DateNames(ds)| == |ds| && forall i :: 0 <= i < |ds| ==> DateNames(ds)[i] == ds[i].date
  {
    if ds != [] { DateNamesExactly(ds[..|ds|-1]); }
  }

  lemma {:induction false} NamesOfExactly(ms: seq<MemberEntry>)
    ensures forall m :: m in ms ==> m.member in NamesOf(ms)
  {
    if ms != [] {
      NamesOfExactly(ms[..|ms|-1]);
      assert ms == ms[..|ms|-1] + [ms[|ms|-1]];
    }
  }

  lemma {:induction false} MemberNamesExactly(ds: seq<DateEntry>, d: DateEntry, m: MemberEntry)
    requires d in ds && m in d.members
    ensures m.member in MemberNames(ds)
  {
    var init, last := ds[..|ds|-1], ds[|ds|-1];
    assert ds == init + [last];
    NamesOfExactly(last.members);
    if d != last { MemberNamesExactly(init, d, m); }
  }

  /** A listed name that some entry names, or "ANY" covers, is gathered in the end. */
  lemma {:induction false} ListedIsGathered(entries: seq<string>, listed: set<string>, name: string)
    requires name in listed && (name in entries || "ANY" in entries)
    ensures name in Gathered(entries, listed)
  {
    var init, last := entries[..|entries|-1], entries[|entries|-1];
    assert entries == init + [last];
    if last != "ANY" && last != name { ListedIsGathered(init, listed, name); }
  }

  /** The first pass loses no matching job with a listed date and member. */
  lemma ListedIsUnpruned(j: Job, ds: seq<DateEntry>, l: Lists)
    requires Complete(ds) && Listed(j, l) && Selected(j, ds, l)
    ensures Unpruned(j, ds, l)
  {
    var d, m :| d in ds && m in d.members && OfDate(j, d, l) && OfMember(j, m, l) && OfChunk(j, m, l);
    DateNamesExactly(ds);
    assert d.date in DateNames(ds) by { var i :| 0 <= i < |ds| && ds[i] == d; assert DateNames(ds)[i] == d.date; }
    MemberNamesExactly(ds, d, m);
    if j.date.Some? { ListedIsGathered(DateNames(ds), l.dates, j.date.value); }
    if j.member.Some? { ListedIsGathered(MemberNames(ds), l.members, j.member.value); }
  }

  /** For every job: the result is the simple meaning of the filter exactly when the date and the
      member of every matching job survive, which is to say that they are listed and "ANY"
      occurs, or that no "ANY" follows their own entry. */
  lemma FilterIsExactIff(ds: seq<DateEntry>, es: Option<seq<SectionEntry>>, l: Lists, jobs: seq<Job>)
    requires Complete(ds)
    ensures Filtered(ds, es, l, jobs) == (set j | j in jobs && Matching(j, ds, es, l))
      <==> forall j :: j in jobs && Matching(j, ds, es, l) ==>
        && (j.date.Some? ==> Survives(DateNames(ds), l.dates, j.date.value))
        && (j.member.Some? ==> Survives(MemberNames(ds), l.members, j.member.value))
  {
    forall j: Job ensures Unpruned(j, ds, l) <==>
      && (j.date.Some? ==> Survives(DateNames(ds), l.dates, j.date.value))
      && (j.member.Some? ==> Survives(MemberNames(ds), l.members, j.member.value))
    {
      if j.date.Some? { GatheredExactly(DateNames(ds), l.dates, j.date.value); }
      if j.member.Some? { GatheredExactly(MemberNames(ds), l.members, j.member.value); }
    }
    hide Unpruned, Matching, Survives;
    var simple := set j | j in jobs && Matching(j, ds, es, l);
    if Filtered(ds, es, l, jobs) == simple {
      forall j | j in jobs && Matching(j, ds, es, l) ensures Unpruned(j, ds, l) { assert j in simple; }
    }
  }

  /** What `filter_jobs_by_chunks_splits` gives. */
  ghost function Filtered(ds: seq<DateEntry>, es: Option<seq<SectionEntry>>, l: Lists, jobs: seq<Job>): set<Job>
    requires Complete(ds)
  {
    set j | j in jobs && Matching(j, ds, es, l) && Unpruned(j, ds, l)
  }

  /** A job of a date that is not listed matches its own entry, and is lost because "ANY" comes
      later. The other way round it is found. */
  lemma LaterAnyLosesAJob()
    ensures var j := Job("J", "SIM", Some("19900101"), None, None, false, None, -1);
      var anyone := [MemberEntry("ANY", ["ANY"])];
      var own, any := DateEntry("19900101", anyone), DateEntry("ANY", anyone);
      var l := Lists({"20000101"}, {"FC0"}, [1]);
      && Complete([own, any]) && Matching(j, [own, any], None, l) && Filtered([own, any], None, l, [j]) == {}
      && Complete([any, own]) && Filtered([any, own], None, l, [j]) == {j}
  {
    var j := Job("J", "SIM", Some("19900101"), None, None, false, None, -1);
    var anyone := [MemberEntry("ANY", ["ANY"])];
    var own, any := DateEntry("19900101", anyone), DateEntry("ANY", anyone);
    var l := Lists({"20000101"}, {"FC0"}, [1]);
    var lost, found := [own, any], [any, own];
    var m := own.members[0];
    assert m in own.members && OfDate(j, own, l) && OfMember(j, m, l) && OfChunk(j, m, l);
    assert own in lost && own in found;
    assert lost[..1] == [own] && DateNames(lost) == DateNames([own]) + ["ANY"];
    GatheredOneMore(DateNames([own]), "ANY", l.dates);
    assert found[..1] == [any] && DateNames(found) == DateNames([any]) + ["19900101"];
    GatheredOneMore(DateNames([any]), "19900101", l.dates);
  }

  /** The same date, with the same members in any order. */
  ghost predicate SameDate(d: DateEntry, d': DateEntry) {
    d.date == d'.date && forall m :: m in d.members <==> m in d'.members
  }

  /** Every date entry of one is, up to the order of its members, one of the other. */
  ghost predicate Within(ds: seq<DateEntry>, ds': seq<DateEntry>) {
    forall d :: d in ds ==> exists d' :: d' in ds' && SameDate(d, d')
  }

  lemma WithinComplete(ds: seq<DateEntry>, ds': seq<DateEntry>)
    requires Within(ds', ds) && Complete(ds)
    ensures Complete(ds')
  {}

  lemma SelectedWithin(j: Job, ds: seq<DateEntry>, ds': seq<DateEntry>, l: Lists)
    requires Complete(ds) && Complete(ds') && Within(ds, ds') && Selected(j, ds, l)
    ensures Selected(j, ds', l)
  {
    hide OfMember, OfChunk;
    var d, m :| d in ds && m in d.members && OfDate(j, d, l) && OfMember(j, m, l) && OfChunk(j, m, l);
    var d' :| d' in ds' && SameDate(d, d');
    assert m in d'.members && OfDate(j, d', l);
  }

  /** On jobs with dates and members of the experiment, neither the order of the entries, nor that
      of the members of a date, nor how often one occurs changes the result. */
  lemma OrderDoesNotMatter(ds: seq<DateEntry>, ds': seq<DateEntry>, es: seq<SectionEntry>, es': seq<SectionEntry>,
                           l: Lists, jobs: seq<Job>)
    requires Complete(ds) && Within(ds, ds') && Within(ds', ds) && (forall e :: e in es <==> e in es')
    requires forall j :: j in jobs ==> Listed(j, l)
    ensures Complete(ds') && Filtered(ds, Some(es), l, jobs) == Filtered(ds', Some(es'), l, jobs)
  {
    WithinComplete(ds, ds');
    forall j | j in jobs
      ensures Matching(j, ds, Some(es), l) <==> Matching(j, ds', Some(es'), l)
      ensures Matching(j, ds, Some(es), l) ==> Unpruned(j, ds, l) && Unpruned(j, ds', l)
    {
      hide InSection, Selected, Listed, Within;
      assert InSections(j, es) <==> InSections(j, es');
      if Selected(j, ds, l) {
        SelectedWithin(j, ds, ds', l);
        ListedIsUnpruned(j, ds, l);
        ListedIsUnpruned(j, ds', l);
      }
      if Selected(j, ds', l) { SelectedWithin(j, ds', ds, l); }
    }
    hide Matching, Unpruned, Listed, Within;
  }

  predicate EndsWithAny(chunks: seq<string>) { chunks != [] && chunks[|chunks|-1] == "ANY" }

  /** A number above all that the words write. */
  function Above(words: seq<string>): nat {
    if words == [] then 0
    else
      match ParseNat(words[0])
      case None => Above(words[1..])
      case Some(n) => if n < Above(words[1..]) then Above(words[1..]) else n + 1
  }

  lemma {:induction false} AboveIsNoWord(words: seq<string>, n: nat)
    requires Above(words) <= n
    ensures Decimal(n) !in words
  {
    if words != [] {
      AboveIsNoWord(words[1..], n);
      ParseDigits(n);
      assert words == [words[0]] + words[1..];
    }
  }

  /** A filter of one date, one member and the given chunks. */
  function OfChunks(date: string, member: string, chunks: seq<string>): seq<DateEntry> {
    [DateEntry(date, [MemberEntry(member, chunks)])]
  }

  lemma OneEntry(j: Job, date: string, member: string, chunks: seq<string>, l: Lists)
    requires chunks != []
    ensures Complete(OfChunks(date, member, chunks))
    ensures var m := MemberEntry(member, chunks);
      Selected(j, OfChunks(date, member, chunks), l) ==
        (OfDate(j, DateEntry(date, [m]), l) && OfMember(j, m, l) && OfChunk(j, m, l))
  {
    var ds, m := OfChunks(date, member, chunks), MemberEntry(member, chunks);
    assert ds[0] in ds && m in ds[0].members;
    hide OfDate, OfMember, OfChunk;
  }

  /** The first pass does not look at chunks. */
  lemma ChunksDoNotPrune(j: Job, date: string, member: string, xs: seq<string>, ys: seq<string>, l: Lists)
    ensures Unpruned(j, OfChunks(date, member, xs), l) <==> Unpruned(j, OfChunks(date, member, ys), l)
  {
    var a, b := OfChunks(date, member, xs), OfChunks(date, member, ys);
    assert NamesOf(a[0].members) == NamesOf([]) + [member] == NamesOf(b[0].members);
    assert a[..0] == b[..0] == [];
    assert DateNames(a) == DateNames(b) && MemberNames(a) == MemberNames(b);
  }

  lemma SameChunks(j: Job, member: string, xs: seq<string>, ys: seq<string>, l: Lists)
    requires xs != [] && ys != [] && (forall w :: w in xs <==> w in ys) && EndsWithAny(xs) == EndsWithAny(ys)
    ensures OfChunk(j, MemberEntry(member, xs), l) <==> OfChunk(j, MemberEntry(member, ys), l)
  {}

  /** A job of a chunk that no word names, in an experiment of that chunk alone. */
  lemma ChunkTellsApart(date: string, member: string, xs: seq<string>, ys: seq<string>)
    requires xs != [] && ys != [] && (forall w :: w in xs <==> w in ys) && EndsWithAny(xs) && !EndsWithAny(ys)
    ensures var c := Above(xs) + 1;
      var j, l := Job("", "", None, None, Some(c), false, None, -1), Lists({}, {}, [c]);
      && Complete(OfChunks(date, member, xs)) && Complete(OfChunks(date, member, ys))
      && j in Filtered(OfChunks(date, member, xs), None, l, [j])
      && j !in Filtered(OfChunks(date, member, ys), None, l, [j])
  {
    var c := Above(xs) + 1;
    AboveIsNoWord(xs, c);
    var j, l := Job("", "", None, None, Some(c), false, None, -1), Lists({}, {}, [c]);
    OneEntry(j, date, member, xs, l);
    OneEntry(j, date, member, ys, l);
    hide Selected, Complete, Decimal;
  }

  /** The filters select the same of any jobs, whatever the experiment. */
  ghost predicate SelectTheSame(ds: seq<DateEntry>, ds': seq<DateEntry>)
    requires Complete(ds) && Complete(ds')
  {
    forall es, l, jobs :: Filtered(ds, es, l, jobs) == Filtered(ds', es, l, jobs)
  }

  /** Only the last of the chunks is asked for "ANY": two lists of the same chunks select the same jobs
      if and only if both end with it, or neither does. */
  lemma ChunkOrderMattersExactly(date: string, member: string, xs: seq<string>, ys: seq<string>)
    requires xs != [] && ys != [] && forall w :: w in xs <==> w in ys
    ensures Complete(OfChunks(date, member, xs)) && Complete(OfChunks(date, member, ys))
    ensures var a, b := OfChunks(date, member, xs), OfChunks(date, member, ys);
      SelectTheSame(a, b) <==> EndsWithAny(xs) == EndsWithAny(ys)
  {
    var a, b := OfChunks(date, member, xs), OfChunks(date, member, ys);
    if EndsWithAny(xs) == EndsWithAny(ys) {
      forall es, l, jobs: seq<Job> ensures Filtered(a, es, l, jobs) == Filtered(b, es, l, jobs) {
        forall j: Job ensures Unpruned(j, a, l) == Unpruned(j, b, l) && Selected(j, a, l) == Selected(j, b, l) {
          ChunksDoNotPrune(j, date, member, xs, ys, l);
          OneEntry(j, date, member, xs, l);
          OneEntry(j, date, member, ys, l);
          SameChunks(j, member, xs, ys, l);
        }
        hide Unpruned, Selected, InSections, OfChunks;
      }
    } else if EndsWithAny(xs) {
      ChunkTellsApart(date, member, xs, ys);
    } else {
      ChunkTellsApart(date, member, ys, xs);
    }
  }

  /** A list in two orders, and a job that only one of them selects. */
  lemma ChunkOrderMatters()
    ensures var j := Job("J", "SIM", None, None, Some(2), false, None, -1);
      var first, last := MemberEntry("ANY", ["ANY", "1"]), MemberEntry("ANY", ["1", "ANY"]);
      var l := Lists({"20000101"}, {"FC0"}, [1, 2]);
      !OfChunk(j, first, l) && OfChunk(j, last, l)
  {}
}

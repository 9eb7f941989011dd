/** The filter of jobs from the formula that is written on the command line. */
module Selection {
  import opened Options
  import opened Decimals
  import opened ChunkFormula
  import F = JobFilter

  /** The members of a date, if all of them are words. */
  function MemberEntries(ms: seq<MemberJson>): Option<seq<F.MemberEntry>> {
    if ms == [] then Some([])
    else
      match (MemberEntries(ms[..|ms|-1]), ms[|ms|-1].m)
      case (Some(before), Atom(member)) => Some(before + [F.MemberEntry(member, ms[|ms|-1].cs)])
      case _ => None
  }

  function DateEntries(ds: seq<DateJson>): Option<seq<F.DateEntry>> {
    if ds == [] then Some([])
    else
      match (DateEntries(ds[..|ds|-1]), MemberEntries(ds[|ds|-1].ms))
      case (Some(before), Some(members)) => Some(before + [F.DateEntry(ds[|ds|-1].sd, members)])
      case _ => None
  }

  /** What the formula selects; None stands for an error in it. */
  ghost function SelectedBy(text: seq<Token>, es: Option<seq<F.SectionEntry>>, l: F.Lists,
                            jobs: seq<F.Job>): Option<set<F.Job>> {
    match Parsed(text)
    case None => None
    case Some(data) =>
      match DateEntries(data)
      case None => None
      case Some(ds) => if F.Complete(ds) then Some(F.Filtered(ds, es, l, jobs)) else None
  }

  /** `filter_jobs_by_chunks_splits`, from the words of the formula. */
  method FilterJobs(text: seq<Token>, es: Option<seq<F.SectionEntry>>, l: F.Lists, jobs: seq<F.Job>)
    returns (r: Option<set<F.Job>>)
    ensures r == SelectedBy(text, es, l, jobs)
  {
    var data := CreateJson(text);
    if data.None? { return None; }
    var ds := DateEntries(data.value);
    if ds.None? { return None; }
    r := F.FilterJobsByChunksSplits(ds.value, es, l, jobs);
  }

  // ---------------------------------------------------------------- what a specification means

  /** "ANY" as the last of the chunks, which a range without numbers leaves to the one before. */
  predicate SaysAny(cs: seq<Chunk>) {
    cs != [] &&
    match cs[|cs|-1]
    case Plain(text) => text == "ANY"
    case Span(lo, hi) => lo > hi && SaysAny(cs[..|cs|-1])
  }

  predicate NamesChunk(c: Chunk, n: int) {
    match c
    case Plain(text) => text == Decimal(n)
    case Span(lo, hi) => lo <= n <= hi
  }

  predicate MatchesChunks(j: F.Job, cs: seq<Chunk>, l: F.Lists) {
    j.chunk.None? || j.synchronize ||
    if SaysAny(cs) then j.chunk.value in l.chunks else exists c :: c in cs && NamesChunk(c, j.chunk.value)
  }

  predicate MatchesMember(j: F.Job, m: MemberSpec, l: F.Lists) {
    && (j.member.None? || if m.member == "ANY" then j.member.value in l.members else j.member.value == m.member)
    && MatchesChunks(j, m.chunks, l)
  }

  predicate MatchesDate(j: F.Job, d: DateSpec, l: F.Lists) {
    && (j.date.None? || if d.date == "ANY" then j.date.value in l.dates else j.date.value == d.date)
    && exists m :: m in d.members && MatchesMember(j, m, l)
  }

  /** The job matches a date of the specification, one of its members and one of their chunks. */
  predicate MatchesSpec(j: F.Job, ds: seq<DateSpec>, l: F.Lists) { exists d :: d in ds && MatchesDate(j, d, l) }

  /** Every member has a chunk. */
  predicate HasChunks(ds: seq<DateSpec>) {
    forall d :: d in ds ==> forall m :: m in d.members ==> Expanded(m.chunks) != []
  }

  // ---------------------------------------------------------------- entries of a specification

  function MembersOf(ms: seq<MemberSpec>): seq<F.MemberEntry> {
    seq(|ms|, i requires 0 <= i < |ms| => F.MemberEntry(ms[i].member, Expanded(ms[i].chunks)))
  }

  function DatesOf(ds: seq<DateSpec>): seq<F.DateEntry> {
    seq(|ds|, i requires 0 <= i < |ds| => F.DateEntry(ds[i].date, MembersOf(ds[i].members)))
  }

  lemma {:induction false} MembersOfSpec(ms: seq<MemberSpec>)
    ensures MemberEntries(ExpandedMembers(ms)) == Some(MembersOf(ms))
  {
    if ms == [] {
      assert MembersOf(ms) == [];
    } else {
      var n := |ms| - 1;
      MembersOfSpec(ms[..n]);
      var js := ExpandedMembers(ms);
      assert js[..|js|-1] == ExpandedMembers(ms[..n]);
      assert MembersOf(ms) == MembersOf(ms[..n]) + [F.MemberEntry(ms[n].member, Expanded(ms[n].chunks))];
    }
  }

  lemma {:induction false} DatesOfSpec(ds: seq<DateSpec>)
    ensures DateEntries(ExpandedDates(ds)) == Some(DatesOf(ds))
  {
    if ds == [] {
      assert DatesOf(ds) == [];
    } else {
      var n := |ds| - 1;
      DatesOfSpec(ds[..n]);
      MembersOfSpec(ds[n].members);
      var js := ExpandedDates(ds);
      assert js[..|js|-1] == ExpandedDates(ds[..n]);
      assert DatesOf(ds) == DatesOf(ds[..n]) + [F.DateEntry(ds[n].date, MembersOf(ds[n].members))];
    }
  }

  lemma {:induction false} ExpandedNames(cs: seq<Chunk>, n: int)
    ensures Decimal(n) in Expanded(cs) <==> exists c :: c in cs && NamesChunk(c, n)
  {
    if cs != [] {
      var init, last := cs[..|cs|-1], cs[|cs|-1];
      assert cs == init + [last];
      ExpandedNames(init, n);
      if last.Span? { RangeExactly(last.lo, last.hi, n); }
      assert Decimal(n) in Expanded(cs) <==> Decimal(n) in Expanded(init) || NamesChunk(last, n);
    }
  }

  lemma {:induction false} ExpandedSaysAny(cs: seq<Chunk>)
    requires Expanded(cs) != []
    ensures Expanded(cs)[|Expanded(cs)|-1] == "ANY" <==> SaysAny(cs)
  {
    var init, last := cs[..|cs|-1], cs[|cs|-1];
    if last.Span? {
      if last.lo > last.hi {
        assert Expanded(cs) == Expanded(init);
        ExpandedSaysAny(init);
      } else {
        assert Expanded(cs)[|Expanded(cs)|-1] == Decimal(last.hi);
        ParseDigits(last.hi);
      }
    }
  }

  lemma MemberMatches(j: F.Job, m: MemberSpec, l: F.Lists)
    requires Expanded(m.chunks) != []
    ensures var e := F.MemberEntry(m.member, Expanded(m.chunks));
      MatchesMember(j, m, l) <==> F.OfMember(j, e, l) && F.OfChunk(j, e, l)
  {
    if j.chunk.Some? { ExpandedNames(m.chunks, j.chunk.value); }
    ExpandedSaysAny(m.chunks);
    hide Expanded, SaysAny, NamesChunk;
  }

  /** The entries of a specification select the jobs that match it. */
  lemma SpecSelects(j: F.Job, ds: seq<DateSpec>, l: F.Lists)
    requires HasChunks(ds)
    ensures F.Complete(DatesOf(ds))
    ensures F.Selected(j, DatesOf(ds), l) <==> MatchesSpec(j, ds, l)
  {
    CompleteSpec(ds);
    var es := DatesOf(ds);
    hide *;
    if F.Selected(j, es, l) {
      var e, m' := SelectedMeans(j, es, l);
      var i, k := EntryIsWritten(ds, e, m');
      MemberMatches(j, ds[i].members[k], l);
      DateMatches(j, ds, i, k, l);
    }
    if MatchesSpec(j, ds, l) {
      var i, k := SpecMeans(j, ds, l);
      MemberMatches(j, ds[i].members[k], l);
      EntryMatches(j, ds, i, k, l);
    }
  }

  lemma SelectedMeans(j: F.Job, es: seq<F.DateEntry>, l: F.Lists) returns (e: F.DateEntry, m: F.MemberEntry)
    requires F.Complete(es) && F.Selected(j, es, l)
    ensures e in es && m in e.members && m.chunks != []
    ensures F.OfDate(j, e, l) && F.OfMember(j, m, l) && F.OfChunk(j, m, l)
  {
    e, m :| e in es && m in e.members && F.OfDate(j, e, l) && F.OfMember(j, m, l) && F.OfChunk(j, m, l);
  }

  lemma EntryIsWritten(ds: seq<DateSpec>, e: F.DateEntry, m: F.MemberEntry) returns (i: nat, k: nat)
    requires HasChunks(ds) && e in DatesOf(ds) && m in e.members
    ensures i < |ds| && k < |ds[i].members| && Expanded(ds[i].members[k].chunks) != []
    ensures e.date == ds[i].date && m == F.MemberEntry(ds[i].members[k].member, Expanded(ds[i].members[k].chunks))
  {
    i :| 0 <= i < |ds| && DatesOf(ds)[i] == e;
    k :| 0 <= k < |e.members| && e.members[k] == m;
    assert ds[i] in ds && ds[i].members[k] in ds[i].members;
    hide Expanded;
  }

  lemma DateMatches(j: F.Job, ds: seq<DateSpec>, i: nat, k: nat, l: F.Lists)
    requires i < |ds| && k < |ds[i].members| && MatchesMember(j, ds[i].members[k], l)
    requires F.OfDate(j, F.DateEntry(ds[i].date, []), l)
    ensures MatchesSpec(j, ds, l)
  {
    hide MatchesMember;
    assert ds[i] in ds && ds[i].members[k] in ds[i].members;
    assert MatchesDate(j, ds[i], l);
  }

  lemma SpecMeans(j: F.Job, ds: seq<DateSpec>, l: F.Lists) returns (i: nat, k: nat)
    requires HasChunks(ds) && MatchesSpec(j, ds, l)
    ensures i < |ds| && k < |ds[i].members| && Expanded(ds[i].members[k].chunks) != []
    ensures MatchesMember(j, ds[i].members[k], l) && F.OfDate(j, F.DateEntry(ds[i].date, []), l)
  {
    hide MatchesMember, Expanded;
    var d :| d in ds && MatchesDate(j, d, l);
    var m :| m in d.members && MatchesMember(j, m, l);
    i :| 0 <= i < |ds| && ds[i] == d;
    k :| 0 <= k < |d.members| && d.members[k] == m;
  }

  lemma EntryMatches(j: F.Job, ds: seq<DateSpec>, i: nat, k: nat, l: F.Lists)
    requires i < |ds| && k < |ds[i].members| && F.Complete(DatesOf(ds))
    requires Expanded(ds[i].members[k].chunks) != [] && F.OfDate(j, F.DateEntry(ds[i].date, []), l)
    requires var m := F.MemberEntry(ds[i].members[k].member, Expanded(ds[i].members[k].chunks));
      F.OfMember(j, m, l) && F.OfChunk(j, m, l)
    ensures F.Selected(j, DatesOf(ds), l)
  {
    hide F.OfMember, F.OfChunk, F.Complete, Expanded;
    var e := DatesOf(ds)[i];
    var m := e.members[k];
    assert e in DatesOf(ds) && m in e.members && F.OfDate(j, e, l);
  }

  /** The job is of a section that is named, or of any, and if it has several splits, its own is named or
      none is. */
  predicate MatchesSections(j: F.Job, es: seq<F.SectionEntry>) {
    exists e :: e in es && e.section in {"ANY", j.section} &&
      (j.splits.None? || j.splits.value <= 1 || NamesSplit(e, j.split))
  }

  /** A number is named by its numeral or by a range that holds it. Naming nothing, or "ANY", names all. */
  predicate NamesSplit(e: F.SectionEntry, split: int) {
    || e.any
    || (forall w :: w in e.words ==> w.Splits? && w.lo > w.hi)
    || (exists w :: w in e.words && if w.Plain? then w.text in {"ANY", Decimal(split)} else w.lo <= split <= w.hi)
  }

  lemma SectionsMatch(j: F.Job, es: seq<F.SectionEntry>)
    ensures F.InSections(j, es) <==> MatchesSections(j, es)
  {
    forall e ensures F.InSection(j, e) <==>
      e.section in {"ANY", j.section} && (j.splits.None? || j.splits.value <= 1 || NamesSplit(e, j.split))
    {
      SectionMatches(j, e);
    }
    hide F.InSection, NamesSplit;
  }

  lemma SectionMatches(j: F.Job, e: F.SectionEntry)
    ensures F.InSection(j, e) <==>
      e.section in {"ANY", j.section} && (j.splits.None? || j.splits.value <= 1 || NamesSplit(e, j.split))
  {}

  /** Filtering by a specification as it is written selects exactly the jobs that match it, and
      its sections, for jobs with dates and members of the experiment. */
  lemma WrittenSpecSelects(ds: seq<DateSpec>, rest: seq<Token>, es: Option<seq<F.SectionEntry>>, l: F.Lists,
                           jobs: seq<F.Job>)
    requires PlainDates(ds) && HasChunks(ds)
    requires forall j :: j in jobs ==>
      && (j.date.Some? ==> j.date.value in l.dates) && (j.member.Some? ==> j.member.value in l.members)
    ensures SelectedBy(Printed(ds) + rest, es, l, jobs)
      == Some(set j | j in jobs && (es.Some? ==> MatchesSections(j, es.value)) && MatchesSpec(j, ds, l))
  {
    FormulaRoundTrip(ds, rest);
    DatesOfSpec(ds);
    CompleteSpec(ds);
    forall j | j in jobs
      ensures F.Selected(j, DatesOf(ds), l) <==> MatchesSpec(j, ds, l)
      ensures F.Selected(j, DatesOf(ds), l) ==> F.Unpruned(j, DatesOf(ds), l)
      ensures es.Some? ==> F.InSections(j, es.value) == MatchesSections(j, es.value)
    {
      SpecSelects(j, ds, l);
      if es.Some? { SectionsMatch(j, es.value); }
      if F.Selected(j, DatesOf(ds), l) { F.ListedIsUnpruned(j, DatesOf(ds), l); }
    }
    hide F.Selected, F.Unpruned, F.InSections, F.Listed, MatchesSpec, MatchesSections;
    hide Parsed, Printed, DateEntries, DatesOf, F.Complete;
    assert F.Filtered(DatesOf(ds), es, l, jobs)
      == set j | j in jobs && (es.Some? ==> MatchesSections(j, es.value)) && MatchesSpec(j, ds, l);
  }

  lemma CompleteSpec(ds: seq<DateSpec>)
    requires HasChunks(ds)
    ensures F.Complete(DatesOf(ds))
  {
    var es := DatesOf(ds);
    forall e, m' | e in es && m' in e.members ensures m'.chunks != [] {
      var i :| 0 <= i < |ds| && es[i] == e;
      var k :| 0 <= k < |e.members| && e.members[k] == m';
      assert ds[i] in ds && ds[i].members[k] in ds[i].members;
    }
  }
}

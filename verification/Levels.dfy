/** The levels of the jobs of a wrapper: the roots, their children, the children of those, and
    so on. A level lists the ends of the walks from the roots, so a job stands in it once for
    every walk that leads to it. */
module Levels {
  import opened Digraph
  import opened JobRecords
  import opened Sequences

  predicate UniqueNames(jobs: seq<JobData>) {
    forall i, j :: 0 <= i < j < |jobs| ==> jobs[i].jobName != jobs[j].jobName
  }

  /** The dictionary from names to jobs. */
  function ByName(jobs: seq<JobData>): map<string, JobData> {
    if jobs == [] then map[] else ByName(jobs[..|jobs|-1])[jobs[|jobs|-1].jobName := jobs[|jobs|-1]]
  }

  function ChildrenNames(jobs: seq<JobData>): seq<string> {
    if jobs == [] then [] else ChildrenNames(jobs[..|jobs|-1]) + jobs[|jobs|-1].childrenList
  }

  /** The jobs of the wrapper with these names. */
  function Named(b: map<string, JobData>, names: seq<string>): seq<JobData> {
    if names == [] then []
    else
      var last := names[|names|-1];
      Named(b, names[..|names|-1]) + if last in b then [b[last]] else []
  }

  function Next(b: map<string, JobData>, jobs: seq<JobData>): seq<JobData> { Named(b, ChildrenNames(jobs)) }

  function NotAmong(names: seq<string>, jobs: seq<JobData>): seq<JobData> {
    if jobs == [] then []
    else
      var last := jobs[|jobs|-1];
      NotAmong(names, jobs[..|jobs|-1]) + if last.jobName in names then [] else [last]
  }

  function Roots(jobs: seq<JobData>): seq<JobData> { NotAmong(ChildrenNames(jobs), jobs) }

  function Level(jobs: seq<JobData>, k: nat): seq<JobData> {
    if k == 0 then Roots(jobs) else Next(ByName(jobs), Level(jobs, k - 1))
  }

  /** The names of the children inside the wrapper. */
  function Kids(b: map<string, JobData>, n: string): seq<string> {
    if n in b then Inside(b, b[n].childrenList) else []
  }

  function Inside(b: map<string, JobData>, names: seq<string>): seq<string> {
    if names == [] then []
    else
      var last := names[|names|-1];
      Inside(b, names[..|names|-1]) + if last in b then [last] else []
  }

  /** The jobs of a wrapper, by name, with the child relation inside it. */
  ghost function Wrapper(jobs: seq<JobData>): Graph<string> {
    var b := ByName(jobs);
    map n | n in b :: set k | k in Kids(b, n)
  }

  function Names(jobs: seq<JobData>): seq<string> { seq(|jobs|, i requires 0 <= i < |jobs| => jobs[i].jobName) }

  // ---------------------------------------------------------------- names

  /** The dictionary leads from a name back to the job. */
  ghost predicate Known(b: map<string, JobData>, jobs: seq<JobData>) {
    forall j :: j in jobs ==> j.jobName in b && b[j.jobName] == j
  }

  /** The dictionary leads from a name to a job of that name. */
  ghost predicate Keyed(b: map<string, JobData>) {
    forall n :: n in b ==> b[n].jobName == n
  }

  lemma {:induction false} ByNameFinds(jobs: seq<JobData>)
    requires UniqueNames(jobs)
    ensures Known(ByName(jobs), jobs) && Keyed(ByName(jobs))
    ensures forall n :: n in ByName(jobs) ==> ByName(jobs)[n] in jobs
  {
    if jobs != [] {
      var init, last := jobs[..|jobs|-1], jobs[|jobs|-1];
      assert jobs == init + [last];
      ByNameFinds(init);
    }
  }

  lemma {:induction false} NamedAreKnown(b: map<string, JobData>, names: seq<string>)
    requires Keyed(b)
    ensures Known(b, Named(b, names)) && Names(Named(b, names)) == Inside(b, names)
  {
    if names != [] {
      var init, last := names[..|names|-1], names[|names|-1];
      NamedAreKnown(b, init);
      if last in b { assert Names(Named(b, init) + [b[last]]) == Names(Named(b, init)) + [last]; }
    }
  }

  lemma {:induction false} InsideExactly(b: map<string, JobData>, names: seq<string>)
    ensures forall n :: n in Inside(b, names) <==> n in names && n in b
  {
    if names != [] {
      InsideExactly(b, names[..|names|-1]);
      assert names == names[..|names|-1] + [names[|names|-1]];
    }
  }

  lemma {:induction false} InsideConcat(b: map<string, JobData>, xs: seq<string>, ys: seq<string>)
    ensures Inside(b, xs + ys) == Inside(b, xs) + Inside(b, ys)
  {
    if ys == [] {
      assert xs + ys == xs;
    } else {
      var init := ys[..|ys|-1];
      InsideConcat(b, xs, init);
      assert (xs + ys)[..|xs + ys|-1] == xs + init;
    }
  }

  lemma {:induction false} ChildrenNamesExactly(jobs: seq<JobData>, n: string)
    ensures n in ChildrenNames(jobs) <==> exists j :: j in jobs && n in j.childrenList
  {
    if jobs != [] {
      var init := jobs[..|jobs|-1];
      ChildrenNamesExactly(init, n);
      assert jobs == init + [jobs[|jobs|-1]];
    }
  }

  lemma {:induction false} NotAmongExactly(names: seq<string>, jobs: seq<JobData>)
    ensures forall j :: j in NotAmong(names, jobs) ==> j in jobs && j.jobName !in names
    ensures forall j :: j in jobs && j.jobName !in names ==> j in NotAmong(names, jobs)
  {
    if jobs != [] {
      var init := jobs[..|jobs|-1];
      NotAmongExactly(names, init);
      assert jobs == init + [jobs[|jobs|-1]];
    }
  }

  /** The roots stand in the order of the jobs. */
  lemma {:induction false} RootsInOrder(names: seq<string>, jobs: seq<JobData>)
    ensures NotAmong(names, jobs)
      == Picked(jobs, seq(|jobs|, i requires 0 <= i < |jobs| => jobs[i].jobName !in names))
  {
    if jobs != [] {
      var n := |jobs| - 1;
      RootsInOrder(names, jobs[..n]);
      var pick := seq(|jobs|, i requires 0 <= i < |jobs| => jobs[i].jobName !in names);
      PickedLast(jobs, pick);
      assert pick[..n] == seq(n, i requires 0 <= i < n => jobs[..n][i].jobName !in names);
      hide Picked;
    }
  }

  lemma LevelsAreKnown(jobs: seq<JobData>, k: nat)
    requires UniqueNames(jobs)
    ensures Known(ByName(jobs), Level(jobs, k))
  {
    ByNameFinds(jobs);
    NotAmongExactly(ChildrenNames(jobs), jobs);
    if k == 0 {
      forall j | j in Level(jobs, 0) ensures j in jobs {}
    } else {
      NamedAreKnown(ByName(jobs), ChildrenNames(Level(jobs, k - 1)));
    }
    hide ByName, NotAmong, Named, Keyed, UniqueNames;
  }

  /** The edges of the wrapper are the child names that are names of its jobs. */
  ghost predicate Edges(g: Graph<string>, b: map<string, JobData>) {
    g.Keys == b.Keys && forall q :: q in g ==> g[q] == set n | n in b[q].childrenList && n in b
  }

  lemma WrapperEdges(jobs: seq<JobData>)
    ensures Edges(Wrapper(jobs), ByName(jobs))
  {
    var b := ByName(jobs);
    forall q | q in b ensures (set n | n in Kids(b, q)) == set n | n in b[q].childrenList && n in b {
      InsideExactly(b, b[q].childrenList);
    }
    hide Inside, ByName;
  }

  lemma NamesExactly(jobs: seq<JobData>, n: string)
    ensures n in Names(jobs) <==> exists j :: j in jobs && j.jobName == n
  {
    if j :| j in jobs && j.jobName == n {
      var i :| 0 <= i < |jobs| && jobs[i] == j;
      assert Names(jobs)[i] == n;
    }
  }

  /** The name of a root of the wrapper. */
  ghost predicate IsRoot(g: Graph<string>, n: string) {
    n in g && forall q :: q in g ==> n !in g[q]
  }

  /** The roots are the jobs that are no child of a job of the wrapper. */
  lemma RootsHaveNoParent(jobs: seq<JobData>, n: string)
    requires UniqueNames(jobs)
    ensures n in Names(Roots(jobs)) <==> IsRoot(Wrapper(jobs), n)
  {
    ByNameFinds(jobs);
    NotAmongExactly(ChildrenNames(jobs), jobs);
    ChildrenNamesExactly(jobs, n);
    NamesExactly(Roots(jobs), n);
    WrapperEdges(jobs);
    hide ByName, Wrapper, NotAmong, ChildrenNames, Names, Known, Keyed, Edges, UniqueNames;
    RootApart(jobs, ByName(jobs), Wrapper(jobs), n);
  }

  lemma RootApart(jobs: seq<JobData>, b: map<string, JobData>, g: Graph<string>, n: string)
    requires Known(b, jobs) && Keyed(b) && (forall m :: m in b ==> b[m] in jobs) && Edges(g, b)
    ensures (exists j :: j in jobs && j.jobName == n && !exists q :: q in jobs && n in q.childrenList) <==> IsRoot(g, n)
  {
    if n in b {
      assert b[n] in jobs;
      if q :| q in jobs && n in q.childrenList { assert n in g[q.jobName]; }
    }
  }

  // ---------------------------------------------------------------- walks

  ghost predicate AllWalks(ws: seq<seq<string>>) { forall i :: 0 <= i < |ws| ==> ws[i] != [] }

  ghost function End(w: seq<string>): string
    requires w != []
  {
    w[|w|-1]
  }

  /** The walk continued to each of the names. */
  ghost function Steps(w: seq<string>, names: seq<string>): (r: seq<seq<string>>)
    ensures AllWalks(r)
  {
    seq(|names|, i requires 0 <= i < |names| => w + [names[i]])
  }

  ghost function Extend(b: map<string, JobData>, ws: seq<seq<string>>): (r: seq<seq<string>>)
    requires AllWalks(ws)
    ensures AllWalks(r)
  {
    if ws == [] then [] else Extend(b, ws[..|ws|-1]) + Steps(ws[|ws|-1], Kids(b, End(ws[|ws|-1])))
  }

  /** The walks of k edges from the roots. */
  ghost function Walks(jobs: seq<JobData>, k: nat): (r: seq<seq<string>>)
    ensures AllWalks(r)
  {
    if k == 0 then Steps([], Names(Roots(jobs))) else Extend(ByName(jobs), Walks(jobs, k - 1))
  }

  ghost function Ends(ws: seq<seq<string>>): (r: seq<string>)
    requires AllWalks(ws)
  {
    seq(|ws|, i requires 0 <= i < |ws| => End(ws[i]))
  }

  lemma EndsOfExtend(b: map<string, JobData>, ws: seq<seq<string>>, w: seq<string>)
    requires AllWalks(ws) && w != []
    ensures Ends(Extend(b, ws + [w])) == Ends(Extend(b, ws)) + Kids(b, End(w))
  {
    assert (ws + [w])[..|ws|] == ws;
    var before, more := Extend(b, ws), Steps(w, Kids(b, End(w)));
    assert Extend(b, ws + [w]) == before + more;
    hide Extend, Kids;
    assert Ends(more) == Kids(b, End(w));
    assert Ends(before + more) == Ends(before) + Ends(more);
  }

  lemma LastOfLevel(b: map<string, JobData>, js: seq<JobData>, ws: seq<seq<string>>)
    requires AllWalks(ws) && ws != [] && Known(b, js) && Names(js) == Ends(ws)
    ensures var n := |ws| - 1;
      && |js| == |ws| && ws == ws[..n] + [ws[n]] && AllWalks(ws[..n])
      && Known(b, js[..n]) && Names(js[..n]) == Ends(ws[..n])
      && Inside(b, js[n].childrenList) == Kids(b, End(ws[n]))
      && ChildrenNames(js) == ChildrenNames(js[..n]) + js[n].childrenList
  {
    var n := |ws| - 1;
    assert |Names(js)| == |Ends(ws)|;
    assert Names(js[..n]) == Names(js)[..n] == Ends(ws[..n]);
    assert js[n].jobName == Names(js)[n] == End(ws[n]) && js[n] in js;
    hide Inside;
  }

  lemma {:induction false} NextOfEnds(b: map<string, JobData>, js: seq<JobData>, ws: seq<seq<string>>)
    requires AllWalks(ws) && Known(b, js) && Names(js) == Ends(ws)
    ensures Inside(b, ChildrenNames(js)) == Ends(Extend(b, ws))
  {
    if ws == [] {
      assert |Names(js)| == |Ends(ws)|;
    } else {
      hide *;
      var n := |ws| - 1;
      LastOfLevel(b, js, ws);
      NextOfEnds(b, js[..n], ws[..n]);
      InsideConcat(b, ChildrenNames(js[..n]), js[n].childrenList);
      EndsOfExtend(b, ws[..n], ws[n]);
    }
  }

  /** A level lists the ends of the walks of its length. */
  lemma {:induction false} LevelListsEnds(jobs: seq<JobData>, k: nat)
    requires UniqueNames(jobs)
    ensures Names(Level(jobs, k)) == Ends(Walks(jobs, k))
  {
    LevelStep(jobs, k);
    hide *;
    if k > 0 {
      LevelListsEnds(jobs, k - 1);
      LevelsAreKnown(jobs, k - 1);
      ByNameFinds(jobs);
      NextOfEnds(ByName(jobs), Level(jobs, k - 1), Walks(jobs, k - 1));
      NamedAreKnown(ByName(jobs), ChildrenNames(Level(jobs, k - 1)));
    }
  }

  lemma LevelStep(jobs: seq<JobData>, k: nat)
    ensures k == 0 ==> Names(Level(jobs, k)) == Ends(Walks(jobs, k))
    ensures k > 0 ==>
      && Level(jobs, k) == Named(ByName(jobs), ChildrenNames(Level(jobs, k - 1)))
      && Walks(jobs, k) == Extend(ByName(jobs), Walks(jobs, k - 1))
  {
    if k == 0 {
      var names := Names(Roots(jobs));
      assert forall i :: 0 <= i < |names| ==> End(Steps([], names)[i]) == names[i];
      assert Ends(Steps([], names)) == names;
    }
  }

  lemma StepsExactly(w: seq<string>, names: seq<string>, p: seq<string>)
    ensures p in Steps(w, names) <==> p != [] && p[..|p|-1] == w && End(p) in names
  {
    if p != [] && p[..|p|-1] == w && End(p) in names {
      var i :| 0 <= i < |names| && names[i] == End(p);
      assert p == w + [names[i]] == Steps(w, names)[i];
    }
  }

  lemma {:induction false} ExtendExactly(b: map<string, JobData>, ws: seq<seq<string>>, p: seq<string>)
    requires AllWalks(ws)
    ensures p in Extend(b, ws) <==> |p| >= 2 && p[..|p|-1] in ws && End(p) in Kids(b, p[|p|-2])
  {
    if ws != [] {
      var init, w := ws[..|ws|-1], ws[|ws|-1];
      assert ws == init + [w];
      ExtendExactly(b, init, p);
      StepsExactly(w, Kids(b, End(w)), p);
    }
  }

  /** A path of k edges from a root. */
  ghost predicate RootPath(g: Graph<string>, k: nat, p: seq<string>) {
    IsPath(g, p) && |p| == k + 1 && IsRoot(g, p[0])
  }

  /** The walks are exactly the paths from the roots. */
  lemma {:induction false} WalksAreRootPaths(jobs: seq<JobData>, k: nat, p: seq<string>)
    requires UniqueNames(jobs)
    ensures p in Walks(jobs, k) <==> RootPath(Wrapper(jobs), k, p)
  {
    if k == 0 {
      StepsExactly([], Names(Roots(jobs)), p);
      if p != [] { RootsHaveNoParent(jobs, p[0]); }
    } else {
      ExtendExactly(ByName(jobs), Walks(jobs, k - 1), p);
      if |p| >= 2 {
        WalksAreRootPaths(jobs, k - 1, p[..|p|-1]);
        PathLonger(jobs, p);
      }
    }
  }

  lemma PathLonger(jobs: seq<JobData>, p: seq<string>)
    requires |p| >= 2
    ensures IsPath(Wrapper(jobs), p) <==> IsPath(Wrapper(jobs), p[..|p|-1]) && End(p) in Kids(ByName(jobs), p[|p|-2])
  {
    var b := ByName(jobs);
    WrapperEdges(jobs);
    if p[|p|-2] in b { InsideExactly(b, b[p[|p|-2]].childrenList); }
    hide Wrapper, IsPath, ByName, Inside;
    PathExtends(Wrapper(jobs), p);
  }

  lemma PathExtends(g: Graph<string>, p: seq<string>)
    requires |p| >= 2 && forall q :: q in g ==> g[q] <= g.Keys
    ensures IsPath(g, p) <==> IsPath(g, p[..|p|-1]) && p[|p|-2] in g && End(p) in g[p[|p|-2]]
  {
    var init := p[..|p|-1];
    if IsPath(g, init) && End(p) in g[p[|p|-2]] {
      forall i | 0 <= i < |p| - 1 ensures p[i] in g && p[i+1] in g[p[i]] {
        assert init[i] in g;
        if i + 1 < |init| { assert init[i+1] in g[init[i]]; }
      }
    }
    if IsPath(g, p) { assert p[|p|-2+1] in g[p[|p|-2]]; }
  }

  // ---------------------------------------------------------------- the loop ends

  lemma {:induction false} NamesFit(jobs: seq<JobData>)
    ensures |Wrapper(jobs).Keys| <= |jobs|
  {
    if jobs != [] {
      var init, last := jobs[..|jobs|-1], jobs[|jobs|-1];
      NamesFit(init);
      assert Wrapper(jobs).Keys == Wrapper(init).Keys + {last.jobName};
    }
  }

  /** The names that the roots lead to. */
  ghost function Starts(jobs: seq<JobData>): set<string> {
    set n | n in ChildrenNames(Roots(jobs)) && n in ByName(jobs)
  }

  /** A path from a root's child. */
  ghost predicate FromStart(jobs: seq<JobData>, p: seq<string>) { IsPath(Wrapper(jobs), p) && p[0] in Starts(jobs) }

  ghost predicate Repeats(p: seq<string>, i: nat, j: nat) { i < j < |p| && p[i] == p[j] }

  /** No root leads to a cycle. */
  ghost predicate LevelsEnd(jobs: seq<JobData>) {
    forall p, i: nat, j: nat :: FromStart(jobs, p) ==> !Repeats(p, i, j)
  }

  lemma {:induction false} ByNameHolds(jobs: seq<JobData>)
    ensures Keyed(ByName(jobs)) && (forall n :: n in ByName(jobs) ==> ByName(jobs)[n] in jobs)
    ensures forall j :: j in jobs ==> j.jobName in ByName(jobs)
  {
    if jobs != [] {
      ByNameHolds(jobs[..|jobs|-1]);
      assert jobs == jobs[..|jobs|-1] + [jobs[|jobs|-1]];
    }
  }

  /** Where the jobs of a level come from. */
  lemma ParentInLevel(jobs: seq<JobData>, k: nat, j: JobData) returns (q: JobData)
    requires k > 0 && j in Level(jobs, k)
    ensures j.jobName in ByName(jobs) && ByName(jobs)[j.jobName] == j
    ensures q in Level(jobs, k - 1) && j.jobName in q.childrenList && j.jobName in ChildrenNames(Level(jobs, k - 1))
  {
    var b, names, n := ByName(jobs), ChildrenNames(Level(jobs, k - 1)), j.jobName;
    ByNameHolds(jobs);
    NamedAreKnown(b, names);
    NamesExactly(Level(jobs, k), n);
    InsideExactly(b, names);
    ChildrenNamesExactly(Level(jobs, k - 1), n);
    hide ByName, ChildrenNames, Named, Inside;
    q :| q in Level(jobs, k - 1) && n in q.childrenList;
  }

  /** A job in a level after the first is the end of a path from a root's child. */
  lemma {:induction false} PathToLevel(jobs: seq<JobData>, k: nat, j: JobData) returns (p: seq<string>)
    requires k > 0 && j in Level(jobs, k)
    ensures |p| == k && FromStart(jobs, p) && p[k-1] == j.jobName
    ensures j.jobName in ByName(jobs) && ByName(jobs)[j.jobName] == j
  {
    hide ByName, ChildrenNames, Wrapper, Roots;
    var q := ParentInLevel(jobs, k, j);
    WrapperEdges(jobs);
    if k == 1 {
      p := [j.jobName];
    } else {
      var init := PathToLevel(jobs, k - 1, q);
      p := init + [j.jobName];
      hide Level, Starts, IsPath;
      PathOneMore(Wrapper(jobs), init, j.jobName);
      PathHead(Wrapper(jobs), init);
    }
  }

  lemma PathHead(g: Graph<string>, p: seq<string>)
    requires IsPath(g, p)
    ensures p != []
  {}

  lemma PathOneMore(g: Graph<string>, p: seq<string>, n: string)
    requires IsPath(g, p) && n in g && n in g[p[|p|-1]]
    ensures IsPath(g, p + [n])
  {
    var q := p + [n];
    forall i | 0 <= i < |q| - 1 ensures q[i+1] in g[q[i]] { if i + 1 < |p| { assert p[i+1] in g[p[i]]; } }
  }

  /** Every such path leads to a job in the level of its length. */
  lemma {:induction false} LevelOfPath(jobs: seq<JobData>, p: seq<string>)
    requires p != [] && FromStart(jobs, p)
    ensures p[|p|-1] in ByName(jobs) && ByName(jobs)[p[|p|-1]] in Level(jobs, |p|)
  {
    var k, n := |p|, p[|p|-1];
    WrapperEdges(jobs);
    if k > 1 {
      var init := p[..k-1];
      assert p[k-2+1] in Wrapper(jobs)[p[k-2]];
      PathExtends(Wrapper(jobs), p);
      LevelOfPath(jobs, init);
      ChildrenNamesExactly(Level(jobs, k - 1), n);
    }
    hide Wrapper, FromStart;
    ByNameHolds(jobs);
    NamedHolds(ByName(jobs), ChildrenNames(Level(jobs, k - 1)), n);
  }

  lemma {:induction false} NamedHolds(b: map<string, JobData>, names: seq<string>, n: string)
    requires n in names && n in b
    ensures b[n] in Named(b, names)
  {
    var init, last := names[..|names|-1], names[|names|-1];
    assert names == init + [last];
    if n != last { NamedHolds(b, init, n); }
  }

  /** A path that repeats a node can be made as long as one likes. */
  lemma {:induction false} LongerPath(jobs: seq<JobData>, p: seq<string>, i: nat, j: nat, m: nat)
    returns (q: seq<string>)
    requires FromStart(jobs, p) && Repeats(p, i, j) && m > 0
    ensures FromStart(jobs, q) && |q| == m
    decreases m - |p|
  {
    var g := Wrapper(jobs);
    hide Wrapper, Starts;
    if |p| >= m {
      q := p[..m];
      assert IsPath(g, q);
    } else {
      var r := p[..j] + p[i..];
      assert IsPath(g, r) by {
        forall l | 0 <= l < |r| - 1 ensures r[l+1] in g[r[l]] {
          if l + 1 < j { assert p[l+1] in g[p[l]]; }
          if l + 1 == j { assert r[l+1] == p[j] && p[l+1] in g[p[l]]; }
          if l >= j { assert p[i+l-j+1] in g[p[i+l-j]]; }
        }
      }
      assert r[0] == p[0] && r[i] == p[i] && r[j] == p[i];
      q := LongerPath(jobs, r, i, j, m);
    }
  }

  lemma PathsFit(jobs: seq<JobData>, p: seq<string>)
    requires LevelsEnd(jobs) && FromStart(jobs, p)
    ensures |p| <= |Wrapper(jobs).Keys|
  {
    forall i, j | 0 <= i < j < |p| ensures p[i] != p[j] { assert !Repeats(p, i, j); }
    hide Wrapper, LevelsEnd;
    DistinctFit(p, Wrapper(jobs).Keys);
  }

  lemma NonEmptyLevel(jobs: seq<JobData>, k: nat) returns (p: seq<string>)
    requires k > 0 && Level(jobs, k) != []
    ensures |p| == k && FromStart(jobs, p)
  {
    p := PathToLevel(jobs, k, Level(jobs, k)[0]);
  }

  /** Some level is empty, so that the loop ends, exactly when no root leads to a cycle. */
  lemma LevelsEndIff(jobs: seq<JobData>)
    ensures (exists k: nat :: Level(jobs, k) == []) <==> LevelsEnd(jobs)
  {
    if LevelsEnd(jobs) {
      var k := |Wrapper(jobs).Keys| + 1;
      if Level(jobs, k) != [] {
        var p := NonEmptyLevel(jobs, k);
        PathsFit(jobs, p);
        assert false;
      }
      assert Level(jobs, k) == [];
    } else {
      var p, i, j :| FromStart(jobs, p) && Repeats(p, i, j);
      forall k: nat ensures Level(jobs, k) != [] {
        if k == 0 {
          assert Roots(jobs) != [];
        } else {
          var q := LongerPath(jobs, p, i, j, k);
          LevelOfPath(jobs, q);
        }
      }
    }
  }

  lemma AcyclicLevelsEnd(jobs: seq<JobData>)
    requires Acyclic(Wrapper(jobs))
    ensures LevelsEnd(jobs)
  {
    forall p, i: nat, j: nat | FromStart(jobs, p) ensures !Repeats(p, i, j) {
      if i < j < |p| { PathNodesDistinct(Wrapper(jobs), p, i, j); }
    }
  }

  /** The nodes of such a path are children, so they are not the root that it comes from. */
  lemma {:induction false} PathNodesAreChildren(jobs: seq<JobData>, p: seq<string>, i: nat)
    requires FromStart(jobs, p) && i < |p|
    ensures p[i] in ChildrenNames(jobs)
  {
    RootsAreJobs(jobs);
    WrapperEdges(jobs);
    ByNameHolds(jobs);
    ChildrenNamesExactly(jobs, p[i]);
    if i == 0 {
      ChildrenNamesExactly(Roots(jobs), p[0]);
    } else {
      assert p[i-1+1] in Wrapper(jobs)[p[i-1]];
    }
  }

  lemma RootsAreJobs(jobs: seq<JobData>)
    ensures forall j :: j in Roots(jobs) ==> j in jobs && j.jobName !in ChildrenNames(jobs)
  {
    NotAmongExactly(ChildrenNames(jobs), jobs);
  }

  /** No level stands beyond the number of jobs. */
  lemma LevelsFit(jobs: seq<JobData>, k: nat)
    requires LevelsEnd(jobs) && Level(jobs, k) != []
    ensures k < |jobs|
  {
    NamesFit(jobs);
    if k == 0 {
      RootsAreJobs(jobs);
      assert Roots(jobs)[0] in jobs;
    } else {
      var p := NonEmptyLevel(jobs, k);
      RootApartFromPath(jobs, p);
    }
  }

  lemma RootApartFromPath(jobs: seq<JobData>, p: seq<string>)
    requires LevelsEnd(jobs) && FromStart(jobs, p)
    ensures |p| < |Wrapper(jobs).Keys|
  {
    hide Wrapper, Roots, ByName, ChildrenNames;
    ChildrenNamesExactly(Roots(jobs), p[0]);
    var r :| r in Roots(jobs) && p[0] in r.childrenList;
    RootsAreJobs(jobs);
    ByNameHolds(jobs);
    WrapperEdges(jobs);
    var q := [r.jobName] + p;
    forall i | 0 <= i < |p| ensures p[i] != r.jobName { PathNodesAreChildren(jobs, p, i); }
    forall i, j | 0 <= i < j < |q| ensures q[i] != q[j] { if i > 0 { assert !Repeats(p, i - 1, j - 1); } }
    DistinctFit(q, Wrapper(jobs).Keys);
  }

  /** `levels` are all the levels of the jobs. */
  ghost predicate AreLevels(jobs: seq<JobData>, levels: seq<seq<JobData>>) {
    && levels != []
    && (forall k :: 0 <= k < |levels| ==> levels[k] == Level(jobs, k))
    && (forall k :: 0 < k < |levels| ==> levels[k] != [])
    && Level(jobs, |levels|) == []
  }

  method GetAllChildren(jobs: seq<JobData>) returns (names: seq<string>)
    ensures names == ChildrenNames(jobs)
  {
    names := [];
    for i := 0 to |jobs|
      invariant names == ChildrenNames(jobs[..i])
    {
      assert jobs[..i + 1][..i] == jobs[..i];
      names := names + jobs[i].childrenList;
    }
    assert jobs[..|jobs|] == jobs;
  }

  method GetRoots(jobs: seq<JobData>) returns (roots: seq<JobData>)
    ensures roots == Roots(jobs)
  {
    var names := GetAllChildren(jobs);
    roots := [];
    for i := 0 to |jobs|
      invariant roots == NotAmong(names, jobs[..i])
    {
      assert jobs[..i + 1][..i] == jobs[..i];
      if jobs[i].jobName !in names { roots := roots + [jobs[i]]; }
    }
    assert jobs[..|jobs|] == jobs;
  }

  method GetLevel(previous: seq<JobData>, byName: map<string, JobData>) returns (level: seq<JobData>)
    ensures level == Next(byName, previous)
  {
    var names := GetAllChildren(previous);
    level := [];
    for i := 0 to |names|
      invariant level == Named(byName, names[..i])
    {
      assert names[..i + 1][..i] == names[..i];
      if names[i] in byName { level := level + [byName[names[i]]]; }
    }
    assert names[..|names|] == names;
  }

  method NamesToJobs(jobs: seq<JobData>) returns (byName: map<string, JobData>)
    ensures byName == ByName(jobs)
  {
    byName := map[];
    for i := 0 to |jobs|
      invariant byName == ByName(jobs[..i])
    {
      assert jobs[..i + 1][..i] == jobs[..i];
      byName := byName[jobs[i].jobName := jobs[i]];
    }
    assert jobs[..|jobs|] == jobs;
  }

  /** `get_jobs_per_level`: unless a root leads to a cycle the loop ends, with no more levels than jobs. */
  method GetJobsPerLevel(jobs: seq<JobData>) returns (levels: seq<seq<JobData>>)
    requires LevelsEnd(jobs)
    ensures AreLevels(jobs, levels) && (jobs != [] ==> |levels| <= |jobs|)
  {
    hide LevelsEnd, ByName, Roots, Next;
    var byName := NamesToJobs(jobs);
    var roots := GetRoots(jobs);
    levels := [roots];
    var nextLevel := GetLevel(roots, byName);
    assert Level(jobs, 1) == Next(byName, Level(jobs, 0));
    while |nextLevel| > 0
      invariant levels != [] && nextLevel == Level(jobs, |levels|)
      invariant forall k :: 0 <= k < |levels| ==> levels[k] == Level(jobs, k)
      invariant forall k :: 0 < k < |levels| ==> levels[k] != []
      invariant jobs != [] ==> |levels| <= |jobs|
      decreases |jobs| - |levels|
    {
      LevelsFit(jobs, |levels|);
      levels := levels + [nextLevel];
      nextLevel := GetLevel(nextLevel, byName);
    }
  }

  // ---------------------------------------------------------------- levels count paths

  /** No job names a child twice. */
  ghost predicate PlainChildren(jobs: seq<JobData>) { forall j :: j in jobs ==> NoRepeats(j.childrenList) }

  lemma {:induction false} CountedOnce<T>(s: seq<T>)
    requires NoRepeats(s)
    ensures forall x :: x in s ==> multiset(s)[x] == 1
  {
    if s != [] {
      CountedOnce(s[..|s|-1]);
      assert s == s[..|s|-1] + [s[|s|-1]];
    }
  }

  lemma {:induction false} InsideHasNoRepeats(b: map<string, JobData>, names: seq<string>)
    requires NoRepeats(names)
    ensures NoRepeats(Inside(b, names))
  {
    if names != [] {
      InsideHasNoRepeats(b, names[..|names|-1]);
      InsideExactly(b, names[..|names|-1]);
    }
  }

  lemma {:induction false} NotAmongHasNoRepeats(names: seq<string>, jobs: seq<JobData>)
    requires UniqueNames(jobs)
    ensures UniqueNames(NotAmong(names, jobs))
  {
    if jobs != [] {
      NotAmongHasNoRepeats(names, jobs[..|jobs|-1]);
      NotAmongExactly(names, jobs[..|jobs|-1]);
    }
  }

  lemma {:induction false} ExtendHasNoRepeats(b: map<string, JobData>, ws: seq<seq<string>>)
    requires AllWalks(ws) && NoRepeats(ws) && forall n :: n in b ==> NoRepeats(Kids(b, n))
    ensures NoRepeats(Extend(b, ws))
  {
    if ws != [] {
      var init, w := ws[..|ws|-1], ws[|ws|-1];
      ExtendHasNoRepeats(b, init);
      var xs, ys := Extend(b, init), Steps(w, Kids(b, End(w)));
      assert w !in init;
      forall i | 0 <= i < |xs| ensures xs[i] !in ys {
        ExtendExactly(b, init, xs[i]);
        StepsExactly(w, Kids(b, End(w)), xs[i]);
      }
      StepsHaveNoRepeats(w, Kids(b, End(w)));
      hide Extend, Steps, Kids;
      NoRepeatsConcat(xs, ys);
    }
    assert ws == [] ==> Extend(b, ws) == [];
  }

  lemma StepsHaveNoRepeats(w: seq<string>, names: seq<string>)
    requires NoRepeats(names)
    ensures NoRepeats(Steps(w, names))
  {
    var s := Steps(w, names);
    forall i, j | 0 <= i < j < |s| ensures s[i] != s[j] { assert s[i][|w|] == names[i] && s[j][|w|] == names[j]; }
  }

  lemma {:induction false} WalksHaveNoRepeats(jobs: seq<JobData>, k: nat)
    requires UniqueNames(jobs) && PlainChildren(jobs)
    ensures NoRepeats(Walks(jobs, k))
  {
    var b := ByName(jobs);
    if k == 0 {
      NotAmongHasNoRepeats(ChildrenNames(jobs), jobs);
      StepsHaveNoRepeats([], Names(Roots(jobs)));
    } else {
      WalksHaveNoRepeats(jobs, k - 1);
      ByNameFinds(jobs);
      forall n | n in b ensures NoRepeats(Kids(b, n)) { InsideHasNoRepeats(b, b[n].childrenList); }
      ExtendHasNoRepeats(b, Walks(jobs, k - 1));
    }
  }

  ghost function EndingAt(ws: seq<seq<string>>, t: string): set<seq<string>> {
    set w | w in ws && w != [] && End(w) == t
  }

  lemma EndingAtOneMore(ws: seq<seq<string>>, w: seq<string>, t: string)
    requires w != [] && w !in ws
    ensures |EndingAt(ws + [w], t)| == |EndingAt(ws, t)| + if End(w) == t then 1 else 0
  {
    assert EndingAt(ws + [w], t) == if End(w) == t then EndingAt(ws, t) + {w} else EndingAt(ws, t);
  }

  lemma {:induction false} EndsCount(ws: seq<seq<string>>, t: string)
    requires AllWalks(ws) && NoRepeats(ws)
    ensures multiset(Ends(ws))[t] == |EndingAt(ws, t)|
  {
    if ws != [] {
      var init, last := ws[..|ws|-1], ws[|ws|-1];
      EndsCount(init, t);
      assert ws == init + [last] && Ends(ws) == Ends(init) + [End(last)];
      EndingAtOneMore(init, last, t);
    }
  }

  /** A job stands in level k exactly as many times as there are paths of k edges to it from
      the roots. */
  lemma LevelCountsPaths(jobs: seq<JobData>, k: nat, t: string, paths: set<seq<string>>)
    requires UniqueNames(jobs) && PlainChildren(jobs)
    requires forall p :: p in paths <==> RootPath(Wrapper(jobs), k, p) && p[k] == t
    ensures multiset(Names(Level(jobs, k)))[t] == |paths|
  {
    LevelListsEnds(jobs, k);
    WalksHaveNoRepeats(jobs, k);
    EndsCount(Walks(jobs, k), t);
    forall p ensures p in Walks(jobs, k) <==> RootPath(Wrapper(jobs), k, p) { WalksAreRootPaths(jobs, k, p); }
    hide *;
    PathsEnding(jobs, k, t, Walks(jobs, k), paths);
  }

  lemma PathsEnding(jobs: seq<JobData>, k: nat, t: string, ws: seq<seq<string>>, paths: set<seq<string>>)
    requires forall p :: p in ws <==> RootPath(Wrapper(jobs), k, p)
    requires forall p :: p in paths <==> RootPath(Wrapper(jobs), k, p) && p[k] == t
    ensures paths == EndingAt(ws, t)
  {
    hide Wrapper, IsPath, IsRoot;
  }

  // ---------------------------------------------------------------- every job, once

  lemma {:induction false} LevelsStayEmpty(jobs: seq<JobData>, k: nat, l: nat)
    requires k <= l && Level(jobs, k) == []
    ensures Level(jobs, l) == []
  {
    if k < l { LevelsStayEmpty(jobs, k, l - 1); }
  }

  /** A path can be continued backwards up to a root. */
  lemma {:induction false} PathFromRoot(g: Graph<string>, p: seq<string>) returns (q: seq<string>)
    requires Acyclic(g) && Closed(g) && IsPath(g, p)
    ensures q != [] && RootPath(g, |q| - 1, q) && q[|q|-1] == p[|p|-1]
    decreases |g.Keys| - |p|
  {
    PathFitsGraph(g, p);
    if IsRoot(g, p[0]) {
      q := p;
    } else {
      var n :| n in g && p[0] in g[n];
      assert IsPath(g, [n] + p) by {
        var r := [n] + p;
        forall i | 0 <= i < |r| - 1 ensures r[i+1] in g[r[i]] {
          if i > 0 { assert p[i] in g[p[i-1]]; }
        }
      }
      PathFitsGraph(g, [n] + p);
      q := PathFromRoot(g, [n] + p);
    }
  }

  lemma WrapperClosed(jobs: seq<JobData>)
    ensures Closed(Wrapper(jobs))
  {
    WrapperEdges(jobs);
    hide Wrapper, ByName;
  }

  /** A path from a root gives a place in a level. */
  lemma PlaceOfPath(jobs: seq<JobData>, p: seq<string>) returns (i: nat)
    requires UniqueNames(jobs) && p != [] && RootPath(Wrapper(jobs), |p| - 1, p)
    ensures i < |Walks(jobs, |p| - 1)| == |Level(jobs, |p| - 1)| && Walks(jobs, |p| - 1)[i] == p
    ensures Level(jobs, |p| - 1)[i].jobName == p[|p|-1]
  {
    var k := |p| - 1;
    WalksAreRootPaths(jobs, k, p);
    LevelListsEnds(jobs, k);
    i :| 0 <= i < |Walks(jobs, k)| && Walks(jobs, k)[i] == p;
    hide Walks, Level, Wrapper, UniqueNames;
    assert |Names(Level(jobs, k))| == |Ends(Walks(jobs, k))|;
    assert Names(Level(jobs, k))[i] == Ends(Walks(jobs, k))[i];
  }

  lemma PathToJob(jobs: seq<JobData>, j: JobData) returns (p: seq<string>)
    requires UniqueNames(jobs) && Acyclic(Wrapper(jobs)) && j in jobs
    ensures p != [] && RootPath(Wrapper(jobs), |p| - 1, p) && p[|p|-1] == j.jobName
  {
    ByNameFinds(jobs);
    WrapperClosed(jobs);
    assert j.jobName in Wrapper(jobs) && IsPath(Wrapper(jobs), [j.jobName]);
    hide Acyclic, UniqueNames, Wrapper, Closed;
    p := PathFromRoot(Wrapper(jobs), [j.jobName]);
  }

  lemma JobOfName(jobs: seq<JobData>, k: nat, i: nat, j: JobData)
    requires UniqueNames(jobs) && j in jobs && i < |Level(jobs, k)| && Level(jobs, k)[i].jobName == j.jobName
    ensures j in Level(jobs, k)
  {
    ByNameFinds(jobs);
    LevelsAreKnown(jobs, k);
    hide UniqueNames, ByName, Level;
    assert Level(jobs, k)[i] in Level(jobs, k);
  }

  /** Every job stands in some level. */
  lemma EveryJobHasALevel(jobs: seq<JobData>, levels: seq<seq<JobData>>, j: JobData) returns (k: nat)
    requires UniqueNames(jobs) && Acyclic(Wrapper(jobs)) && AreLevels(jobs, levels) && j in jobs
    ensures k < |levels| && j in levels[k]
  {
    hide *;
    var p := PathToJob(jobs, j);
    var i := PlaceOfPath(jobs, p);
    k := |p| - 1;
    JobOfName(jobs, k, i, j);
    LevelWithin(jobs, levels, k);
  }

  lemma LevelWithin(jobs: seq<JobData>, levels: seq<seq<JobData>>, k: nat)
    requires AreLevels(jobs, levels) && Level(jobs, k) != []
    ensures k < |levels| && levels[k] == Level(jobs, k)
  {
    hide Level;
    if k >= |levels| { LevelsStayEmpty(jobs, |levels|, k); }
  }

  /** No job has two parents inside the wrapper. */
  ghost predicate Forest(g: Graph<string>) {
    forall n, q, r :: q in g && r in g && n in g[q] && n in g[r] ==> q == r
  }

  lemma {:induction false} OnePathToEach(g: Graph<string>, p: seq<string>, q: seq<string>)
    requires Forest(g) && p != [] && q != []
    requires RootPath(g, |p| - 1, p) && RootPath(g, |q| - 1, q) && p[|p|-1] == q[|q|-1]
    ensures p == q
  {
    var p', q' := p[..|p|-1], q[..|q|-1];
    if p' != [] { assert p[|p|-2] in g && p[|p|-2+1] in g[p[|p|-2]]; }
    if q' != [] { assert q[|q|-2] in g && q[|q|-2+1] in g[q[|q|-2]]; }
    if p' != [] && q' != [] {
      assert p[|p|-2] == q[|q|-2];
      OnePathToEach(g, p', q');
      assert p == p' + [p[|p|-1]] && q == q' + [q[|q|-1]];
    }
  }

  /** The path that a place in a level stands for. */
  lemma PathOfPlace(jobs: seq<JobData>, k: nat, i: nat)
    requires UniqueNames(jobs) && i < |Level(jobs, k)|
    ensures |Walks(jobs, k)| == |Level(jobs, k)|
    ensures var p := Walks(jobs, k)[i]; RootPath(Wrapper(jobs), k, p) && p[k] == Level(jobs, k)[i].jobName
  {
    LevelListsEnds(jobs, k);
    hide Walks, Level, Wrapper, UniqueNames;
    assert |Names(Level(jobs, k))| == |Ends(Walks(jobs, k))|;
    assert Names(Level(jobs, k))[i] == Ends(Walks(jobs, k))[i];
    WalksAreRootPaths(jobs, k, Walks(jobs, k)[i]);
  }

  /** In a forest no job stands in two places. */
  lemma OnePlaceEach(jobs: seq<JobData>, k: nat, i: nat, l: nat, m: nat)
    requires UniqueNames(jobs) && PlainChildren(jobs) && Forest(Wrapper(jobs))
    requires i < |Level(jobs, k)| && m < |Level(jobs, l)| && Level(jobs, k)[i] == Level(jobs, l)[m]
    ensures k == l && i == m
  {
    PathOfPlace(jobs, k, i);
    PathOfPlace(jobs, l, m);
    WalksHaveNoRepeats(jobs, k);
    hide Walks, Level, Wrapper, UniqueNames, PlainChildren, Forest;
    OnePathToEach(Wrapper(jobs), Walks(jobs, k)[i], Walks(jobs, l)[m]);
  }

  // ---------------------------------------------------------------- the levels of a forest

  function Flat<T>(levels: seq<seq<T>>): seq<T> {
    if levels == [] then [] else Flat(levels[..|levels|-1]) + levels[|levels|-1]
  }

  lemma {:induction false} FlatExactly<T>(levels: seq<seq<T>>, x: T)
    ensures x in Flat(levels) <==> exists k :: 0 <= k < |levels| && x in levels[k]
  {
    if levels != [] {
      var init := levels[..|levels|-1];
      FlatExactly(init, x);
      if x in Flat(init) { var k :| 0 <= k < |init| && x in init[k]; assert x in levels[k]; }
      if x in levels[|levels|-1] { assert x in Flat(levels); }
    }
  }

  /** No element stands in two places. */
  ghost predicate OnePlace<T>(levels: seq<seq<T>>) {
    forall k, i, l, m :: InPlace(levels, k, i) && InPlace(levels, l, m) && levels[k][i] == levels[l][m] ==>
      k == l && i == m
  }

  ghost predicate InPlace<T>(levels: seq<seq<T>>, k: int, i: int) { 0 <= k < |levels| && 0 <= i < |levels[k]| }

  lemma NoRepeatsConcat<T>(s: seq<T>, t: seq<T>)
    requires NoRepeats(s) && NoRepeats(t) && forall x :: x in t ==> x !in s
    ensures NoRepeats(s + t)
  {
    forall i, j | 0 <= i < j < |s + t| ensures (s + t)[i] != (s + t)[j] {
      if i < |s| <= j { assert (s + t)[j] in t && (s + t)[i] in s; }
    }
  }

  /** Levels without repeats and without a common element flatten without repeats. */
  lemma {:induction false} FlatHasNoRepeats<T>(levels: seq<seq<T>>)
    requires OnePlace(levels)
    ensures NoRepeats(Flat(levels))
  {
    if levels != [] {
      var init, last := levels[..|levels|-1], levels[|levels|-1];
      assert OnePlace(init) by {
        forall k, i, l, m | InPlace(init, k, i) && InPlace(init, l, m) && init[k][i] == init[l][m]
          ensures k == l && i == m
        {
          assert InPlace(levels, k, i) && InPlace(levels, l, m);
        }
      }
      FlatHasNoRepeats(init);
      forall x | x in last ensures x !in Flat(init) {
        FlatExactly(init, x);
      }
      assert NoRepeats(last) by {
        forall i, j | 0 <= i < j < |last| ensures last[i] != last[j] {
          assert InPlace(levels, |levels| - 1, i) && InPlace(levels, |levels| - 1, j);
        }
      }
      NoRepeatsConcat(Flat(init), last);
    }
    assert levels == [] ==> Flat(levels) == [];
  }

  lemma SameElements<T>(s: seq<T>, t: seq<T>)
    requires NoRepeats(s) && NoRepeats(t) && forall x :: x in s <==> x in t
    ensures multiset(s) == multiset(t)
  {
    CountedOnce(s);
    CountedOnce(t);
    hide NoRepeats;
    forall x ensures multiset(s)[x] == multiset(t)[x] {
      if x in s { assert x in t; } else { assert x !in t; }
    }
  }

  lemma LevelsHoldJobs(jobs: seq<JobData>, k: nat, j: JobData)
    requires j in Level(jobs, k)
    ensures j in jobs
  {
    if k == 0 {
      RootsAreJobs(jobs);
    } else {
      ByNameHolds(jobs);
      var p := PathToLevel(jobs, k, j);
      assert ByName(jobs)[j.jobName] in jobs;
    }
  }

  /** The levels of a forest hold every job exactly once. */
  lemma ForestLevelsPartition(jobs: seq<JobData>, levels: seq<seq<JobData>>)
    requires UniqueNames(jobs) && PlainChildren(jobs) && Acyclic(Wrapper(jobs)) && Forest(Wrapper(jobs))
    requires AreLevels(jobs, levels)
    ensures multiset(Flat(levels)) == multiset(jobs) && NoRepeats(Flat(levels))
  {
    forall k, i, l, m | InPlace(levels, k, i) && InPlace(levels, l, m) && levels[k][i] == levels[l][m]
      ensures k == l && i == m
    {
      OnePlaceEach(jobs, k, i, l, m);
    }
    FlatHasNoRepeats(levels);
    assert NoRepeats(jobs);
    forall j ensures j in Flat(levels) <==> j in jobs {
      FlatExactly(levels, j);
      if j in jobs { var k := EveryJobHasALevel(jobs, levels, j); }
      if k :| 0 <= k < |levels| && j in levels[k] { LevelsHoldJobs(jobs, k, j); }
    }
    SameElements(Flat(levels), jobs);
  }
}

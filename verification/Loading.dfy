/** Loading of the CUSTOM_CONFIG files and folders, which may name each other in circles:
    which paths get loaded, how often, and why the recursion ends. */
module Loading {

  /** A name as it is written, and the path it stands for when its turn comes, once
      placeholders and the home directory are filled in. */
  datatype Name = Name(raw: string, path: string)

  /** The paths that exist. A file names further files to load before and after it, a folder
      lists its configuration files. */
  datatype FileSystem = FileSystem(existing: set<string>, files: set<string>, listing: map<string, seq<string>>,
                                   pre: map<string, seq<Name>>, post: map<string, seq<Name>>)
  {
    function Pre(p: string): seq<Name> { if p in pre then pre[p] else [] }

    function Post(p: string): seq<Name> { if p in post then post[p] else [] }

    function Folder(p: string): seq<Name> {
      if p !in listing then []
      else seq(|listing[p]|, i requires 0 <= i < |listing[p]| => Name(listing[p][i], listing[p][i]))
    }

    /** Everything that loading `p` may go on to load. */
    function Mentions(p: string): seq<Name> {
      if p in files then Pre(p) + Post(p) else Folder(p)
    }

    /** A name spelled like an existing path stands for that path. */
    ghost predicate PlainNames() {
      forall p, n :: p in existing && n in Mentions(p) && n.raw in existing ==> n.path == n.raw
    }
  }

  predicate Distinct(s: seq<string>) {
    s == [] || (s[0] !in s[1..] && Distinct(s[1..]))
  }

  lemma {:induction false} DistinctConcat(a: seq<string>, b: seq<string>)
    requires Distinct(a) && Distinct(b) && forall x :: x in a ==> x !in b
    ensures Distinct(a + b)
  {
    if a == [] {
      assert a + b == b;
    } else {
      assert (a + b)[1..] == a[1..] + b;
      DistinctConcat(a[1..], b);
    }
  }

  // ---------------------------------------------------------------- what should be loaded

  ghost predicate Names(names: seq<Name>, p: string) {
    exists n :: n in names && n.path == p
  }

  /** A chain of existing paths outside `blocked`, from one of the names, each mentioned by
      the one before. */
  ghost predicate Chain(fs: FileSystem, roots: seq<Name>, blocked: set<string>, chain: seq<string>) {
    && chain != []
    && Names(roots, chain[0])
    && (forall i :: 0 <= i < |chain| ==> chain[i] in fs.existing && chain[i] !in blocked)
    && (forall i :: 0 <= i < |chain| - 1 ==> Names(fs.Mentions(chain[i]), chain[i+1]))
  }

  ghost predicate Reaches(fs: FileSystem, roots: seq<Name>, blocked: set<string>, p: string) {
    exists chain :: Chain(fs, roots, blocked, chain) && chain[|chain|-1] == p
  }

  lemma ReachesRoot(fs: FileSystem, roots: seq<Name>, blocked: set<string>, n: Name)
    requires n in roots && n.path in fs.existing && n.path !in blocked
    ensures Reaches(fs, roots, blocked, n.path)
  {
    assert Chain(fs, roots, blocked, [n.path]);
  }

  /** What is reachable from the mentions of a reached path is reachable. */
  lemma ReachesThrough(fs: FileSystem, roots: seq<Name>, blocked: set<string>, n: Name, inner: seq<Name>,
                       later: set<string>, p: string)
    requires n in roots && n.path in fs.existing && n.path !in blocked && blocked <= later
    requires (forall m :: m in inner ==> m in fs.Mentions(n.path)) && Reaches(fs, inner, later, p)
    ensures Reaches(fs, roots, blocked, p)
  {
    var chain :| Chain(fs, inner, later, chain) && chain[|chain|-1] == p;
    var longer := [n.path] + chain;
    assert Chain(fs, roots, blocked, longer) by {
      forall i | 0 <= i < |longer| - 1 ensures Names(fs.Mentions(longer[i]), longer[i+1]) {
        if i > 0 { assert longer[i] == chain[i-1] && longer[i+1] == chain[i]; }
      }
    }
  }

  /** Every existing path mentioned by `p` is loaded. */
  ghost predicate MentionsLoaded(fs: FileSystem, loaded: set<string>, p: string) {
    forall n :: n in fs.Mentions(p) && n.path in fs.existing ==> n.path in loaded
  }

  /** If the roots are loaded and so is everything a newly loaded path mentions, everything
      reachable is loaded. */
  lemma {:induction false} ChainIsLoaded(fs: FileSystem, roots: seq<Name>, before: set<string>, loaded: set<string>,
                                         chain: seq<string>, i: nat)
    requires forall n :: n in roots && n.path in fs.existing ==> n.path in loaded
    requires forall p :: p in loaded && p !in before ==> MentionsLoaded(fs, loaded, p)
    requires Chain(fs, roots, before, chain) && i < |chain|
    ensures chain[i] in loaded
  {
    if i > 0 {
      ChainIsLoaded(fs, roots, before, loaded, chain, i - 1);
      assert chain[i-1] in loaded && Names(fs.Mentions(chain[i-1]), chain[i-1+1]);
      var n :| n in fs.Mentions(chain[i-1]) && n.path == chain[i];
    }
  }

  lemma LoadedExactly(fs: FileSystem, roots: seq<Name>, before: set<string>, loaded: set<string>)
    requires forall n :: n in roots && n.path in fs.existing ==> n.path in loaded
    requires forall p :: p in loaded && p !in before ==> MentionsLoaded(fs, loaded, p) && Reaches(fs, roots, before, p)
    ensures forall p :: p in loaded && p !in before <==> Reaches(fs, roots, before, p)
  {
    forall p | Reaches(fs, roots, before, p) ensures p in loaded && p !in before {
      var chain :| Chain(fs, roots, before, chain) && chain[|chain|-1] == p;
      ChainIsLoaded(fs, roots, before, loaded, chain, |chain| - 1);
    }
  }

  function Elements(s: seq<string>): set<string> { set p | p in s }

  /** The part of the log that starts at `lo` holds exactly what the names reach that is not loaded
      by then. */
  ghost predicate LoadedBetween(fs: FileSystem, log: seq<string>, names: seq<Name>, lo: nat, hi: nat) {
    && lo <= hi <= |log|
    && forall p :: p in log[lo..hi] <==> Reaches(fs, names, Elements(log[..lo]), p)
  }

  lemma LoadedBetweenKept(fs: FileSystem, log: seq<string>, later: seq<string>, names: seq<Name>, lo: nat, hi: nat)
    requires LoadedBetween(fs, log, names, lo, hi) && log <= later
    ensures LoadedBetween(fs, later, names, lo, hi)
  {
    assert later[..|log|] == log;
    assert later[..|log|][lo..hi] == later[lo..hi] && later[..|log|][..lo] == later[..lo];
  }

  lemma {:induction false} DistinctParts(a: seq<string>, b: seq<string>)
    requires Distinct(a + b)
    ensures forall p :: p in b ==> p !in a
  {
    if a != [] {
      assert (a + b)[1..] == a[1..] + b && (a + b)[0] == a[0];
      DistinctParts(a[1..], b);
    }
  }

  /** What loading adds to the log when it loads exactly what some of the names reach, and the
      other names are loaded already. */
  lemma LoadedNow(fs: FileSystem, names: seq<Name>, few: seq<Name>, before: seq<string>, log: seq<string>,
                  loaded: set<string>)
    requires before <= log && Distinct(log) && fs.PlainNames()
    requires forall p :: p in log <==> p in loaded
    requires forall p :: p in before ==> p in fs.existing
    requires forall n :: n in few ==> n in names
    requires forall n :: n in names && n !in few ==> n.path !in fs.existing || n.path in before
    requires if few == [] then log == before else Progress(fs, few, few, Elements(before), loaded)
    ensures LoadedBetween(fs, log, names, |before|, |log|)
  {
    var start := Elements(before);
    var added := log[|before|..];
    assert log == before + added;
    DistinctParts(before, added);
    assert log[..|before|] == before && log[|before|..|log|] == added;
    if few != [] { LoadedExactly(fs, few, start, loaded); }
    forall p ensures p in added <==> Reaches(fs, names, start, p) {
      if p in added {
        RootsWidened(fs, few, names, start, start, p);
      }
      if Reaches(fs, names, start, p) {
        var chain :| Chain(fs, names, start, chain) && chain[|chain|-1] == p;
        var n :| n in names && n.path == chain[0];
        assert n in few;
        assert Chain(fs, few, start, chain);
        assert p in loaded;
      }
    }
  }

  /** A file brings in what the names before it reach, then what the names after it reach. Names that
      are left out because they are loaded reach nothing. */
  lemma FileInTurn(fs: FileSystem, path: string, begun: seq<string>, pre: seq<Name>, middle: seq<string>,
                   second: set<string>, post: seq<Name>, log: seq<string>, loaded: set<string>)
    requires fs.PlainNames() && path in fs.existing && path in fs.files && begun <= middle <= log && Distinct(log)
    requires (forall p :: p in middle <==> p in second) && (forall p :: p in log <==> p in loaded)
    requires second <= fs.existing
    requires forall m :: m in pre <==> m in fs.Pre(path) && m.raw !in Elements(begun)
    requires forall m :: m in post <==> m in fs.Post(path) && m.raw !in Elements(begun)
    requires if pre == [] then middle == begun else Progress(fs, pre, pre, Elements(begun), second)
    requires if post == [] then log == middle else Progress(fs, post, post, second, loaded)
    ensures LoadedBetween(fs, log, fs.Pre(path), |begun|, |middle|)
    ensures LoadedBetween(fs, log, fs.Post(path), |middle|, |log|)
  {
    hide Reaches, New, Progress, LoadedBetween, MentionsLoaded, Distinct;
    var rest := log[|middle|..];
    assert log == middle + rest && second == Elements(middle);
    assert Distinct(middle) by { DistinctPrefix(middle, rest); }
    assert forall p :: p in begun ==> p in middle;
    assert forall m :: m in fs.Pre(path) + fs.Post(path) ==> m in fs.Mentions(path);
    LoadedNow(fs, fs.Pre(path), pre, begun, middle, second);
    LoadedBetweenKept(fs, middle, log, fs.Pre(path), |begun|, |middle|);
    LoadedNow(fs, fs.Post(path), post, middle, log, loaded);
  }

  lemma {:induction false} DistinctPrefix(a: seq<string>, b: seq<string>)
    requires Distinct(a + b)
    ensures Distinct(a)
  {
    if a != [] {
      assert (a + b)[1..] == a[1..] + b && (a + b)[0] == a[0];
      DistinctPrefix(a[1..], b);
    }
  }

  /** The turn of the i-th name. */
  lemma TurnTaken(fs: FileSystem, names: seq<Name>, i: nat, turns: seq<nat>, logged: seq<string>, start: set<string>,
                  log: seq<string>, loaded: set<string>)
    requires fs.PlainNames() && i < |names| && |turns| == i + 1 && turns[i] == |logged|
    requires logged <= log && Distinct(log) && start <= fs.existing
    requires (forall p :: p in logged <==> p in start) && (forall p :: p in log <==> p in loaded)
    requires if names[i].path in fs.existing && names[i].path !in start
      then Progress(fs, [names[i]], [names[i]], start, loaded)
      else log == logged
    requires forall k :: 0 <= k < i ==> LoadedBetween(fs, logged, [names[k]], turns[k], turns[k + 1])
    ensures forall k :: 0 <= k <= i ==> LoadedBetween(fs, log, [names[k]], turns[k], (turns + [|log|])[k + 1])
  {
    hide Reaches, New, Progress, LoadedBetween, MentionsLoaded, Distinct;
    var few := if names[i].path in fs.existing && names[i].path !in start then [names[i]] else [];
    assert start == Elements(logged);
    LoadedNow(fs, [names[i]], few, logged, log, loaded);
    forall k | 0 <= k < i ensures LoadedBetween(fs, log, [names[k]], turns[k], turns[k + 1]) {
      LoadedBetweenKept(fs, logged, log, [names[k]], turns[k], turns[k + 1]);
    }
  }

  // ---------------------------------------------------------------- the loader

  class Loader {
    var currentLoadedFiles: set<string>
    /** Every path loaded so far, in order. */
    ghost var log: seq<string>

    ghost predicate Valid()
      reads this
    {
      Distinct(log) && forall p :: p in log <==> p in currentLoadedFiles
    }

    /** The start of `reload`: the loaded files are reset. */
    constructor ()
      ensures Valid() && log == [] && currentLoadedFiles == {}
    {
      currentLoadedFiles, log := {}, [];
    }

    method NotLoaded(names: seq<Name>) returns (r: seq<Name>)
      ensures forall n :: n in r <==> n in names && n.raw !in currentLoadedFiles
      ensures |r| <= |names|
    {
      r := [];
      var i := 0;
      while i < |names|
        invariant 0 <= i <= |names| && |r| <= i
        invariant forall n :: n in r <==> n in names[..i] && n.raw !in currentLoadedFiles
      {
        if names[i].raw !in currentLoadedFiles { r := r + [names[i]]; }
        i := i + 1;
      }
    }

    /** `load_custom_config`. The recursion ends because each nested call comes after one more
        path has been loaded, and no path is loaded twice. The names have their turns in order:
        the log is cut where each one begins. */
    method LoadCustomConfig(fs: FileSystem, filenamesToLoad: seq<Name>) returns (ghost turns: seq<nat>)
      requires Valid()
      modifies this
      ensures Valid() && old(log) <= log && currentLoadedFiles <= old(currentLoadedFiles) + fs.existing
      ensures Progress(fs, filenamesToLoad, filenamesToLoad, old(currentLoadedFiles), currentLoadedFiles)
      ensures fs.PlainNames() && old(currentLoadedFiles) <= fs.existing ==>
        forall p :: p in currentLoadedFiles && p !in old(currentLoadedFiles) <==>
          Reaches(fs, filenamesToLoad, old(currentLoadedFiles), p)
      ensures |turns| == |filenamesToLoad| + 1 && turns[0] == |old(log)| && turns[|filenamesToLoad|] == |log|
      ensures fs.PlainNames() && old(currentLoadedFiles) <= fs.existing ==>
        forall k :: 0 <= k < |filenamesToLoad| ==>
          LoadedBetween(fs, log, [filenamesToLoad[k]], turns[k], turns[k + 1])
      decreases fs.existing - currentLoadedFiles, 1
    {
      hide Reaches, LoadedBetween, MentionsLoaded, Distinct;
      var i := 0;
      turns := [|log|];
      while i < |filenamesToLoad|
        invariant 0 <= i <= |filenamesToLoad| && Valid() && old(log) <= log
        invariant currentLoadedFiles <= old(currentLoadedFiles) + fs.existing
        invariant Progress(fs, filenamesToLoad, filenamesToLoad[..i], old(currentLoadedFiles), currentLoadedFiles)
        invariant |turns| == i + 1 && turns[0] == |old(log)| && turns[i] == |log|
        invariant fs.PlainNames() && old(currentLoadedFiles) <= fs.existing ==>
          forall k :: 0 <= k < i ==> LoadedBetween(fs, log, [filenamesToLoad[k]], turns[k], turns[k + 1])
      {
        var filename := filenamesToLoad[i];
        ghost var start, logged := currentLoadedFiles, log;
        if filename.path in fs.existing && filename.path !in currentLoadedFiles {
          ghost var ahead := LoadOne(fs, filename);
        }
        if fs.PlainNames() && old(currentLoadedFiles) <= fs.existing {
          TurnTaken(fs, filenamesToLoad, i, turns, logged, start, log, currentLoadedFiles);
        }
        turns := turns + [|log|];
        assert filenamesToLoad[..i+1] == filenamesToLoad[..i] + [filename];
        ProgressStep(fs, filenamesToLoad, filenamesToLoad[..i], filename, old(currentLoadedFiles), start,
          currentLoadedFiles);
        i := i + 1;
      }
      assert filenamesToLoad[..i] == filenamesToLoad;
      if fs.PlainNames() && old(currentLoadedFiles) <= fs.existing {
        LoadedExactly(fs, filenamesToLoad, old(currentLoadedFiles), currentLoadedFiles);
      }
    }

    /** The loading of one path that exists and is not loaded yet. After a file comes what the names
        before it reach, which ends at `ahead` in the log, then what the names after it reach. */
    method LoadOne(fs: FileSystem, filename: Name) returns (ghost ahead: nat)
      requires Valid() && filename.path in fs.existing && filename.path !in currentLoadedFiles
      modifies this
      ensures Valid() && old(log) <= log && currentLoadedFiles <= old(currentLoadedFiles) + fs.existing
      ensures Progress(fs, [filename], [filename], old(currentLoadedFiles), currentLoadedFiles)
      ensures old(log) + [filename.path] <= log
      ensures fs.PlainNames() && old(currentLoadedFiles) <= fs.existing ==>
        if filename.path in fs.files then
          && LoadedBetween(fs, log, fs.Pre(filename.path), |old(log)| + 1, ahead)
          && LoadedBetween(fs, log, fs.Post(filename.path), ahead, |log|)
        else LoadedBetween(fs, log, fs.Folder(filename.path), |old(log)| + 1, |log|)
      decreases fs.existing - currentLoadedFiles, 0
    {
      DistinctConcat(log, [filename.path]);
      currentLoadedFiles, log := currentLoadedFiles + {filename.path}, log + [filename.path];
      hide *;
      ghost var first, begun := currentLoadedFiles, log;
      assert first == Elements(begun);
      ghost var plain := fs.PlainNames() && old(currentLoadedFiles) <= fs.existing;
      if filename.path !in fs.files {
        ghost var turns := LoadCustomConfig(fs, fs.Folder(filename.path));
        OneFolder(fs, filename, old(currentLoadedFiles), currentLoadedFiles);
        ahead := |log|;
        if plain { LoadedNow(fs, fs.Folder(filename.path), fs.Folder(filename.path), begun, log, currentLoadedFiles); }
      } else {
        ghost var turns;
        var pre := NotLoaded(fs.Pre(filename.path));
        var post := NotLoaded(fs.Post(filename.path));
        if |pre| > 0 { turns := LoadCustomConfig(fs, pre); }
        ghost var second, middle := currentLoadedFiles, log;
        ahead := |log|;
        if |post| > 0 { turns := LoadCustomConfig(fs, post); }
        OneFile(fs, filename, old(currentLoadedFiles), pre, second, post, currentLoadedFiles);
        if plain { FileInTurn(fs, filename.path, begun, pre, middle, second, post, log, currentLoadedFiles); }
      }
    }
  }

  // ---------------------------------------------------------------- the bookkeeping

  /** Once the names `done` have had their turn: they are loaded if they exist, and what is new
      mentions only loaded paths and is reachable from the roots. */
  ghost predicate Progress(fs: FileSystem, roots: seq<Name>, done: seq<Name>, before: set<string>,
                           loaded: set<string>) {
    && before <= loaded
    && (fs.PlainNames() && before <= fs.existing ==>
        && (forall n :: n in done && n.path in fs.existing ==> n.path in loaded)
        && (forall p :: p in loaded && p !in before ==> New(fs, roots, before, loaded, p)))
  }

  ghost predicate New(fs: FileSystem, roots: seq<Name>, before: set<string>, loaded: set<string>, p: string) {
    MentionsLoaded(fs, loaded, p) && Reaches(fs, roots, before, p)
  }

  lemma ProgressStep(fs: FileSystem, roots: seq<Name>, done: seq<Name>, n: Name, before: set<string>,
                     start: set<string>, loaded: set<string>)
    requires Progress(fs, roots, done, before, start) && n in roots && start <= before + fs.existing
    requires
      if n.path in fs.existing && n.path !in start then Progress(fs, [n], [n], start, loaded) else loaded == start
    ensures Progress(fs, roots, done + [n], before, loaded)
  {
    if fs.PlainNames() && before <= fs.existing {
      assert start <= fs.existing;
      forall p | p in loaded && p !in before ensures New(fs, roots, before, loaded, p) {
        if p in start {
          assert New(fs, roots, before, start, p);
        } else {
          assert New(fs, [n], start, loaded, p);
          RootsWidened(fs, [n], roots, start, before, p);
        }
      }
    }
  }

  lemma RootsWidened(fs: FileSystem, few: seq<Name>, many: seq<Name>, later: set<string>, before: set<string>,
                     p: string)
    requires (forall n :: n in few ==> n in many) && before <= later && Reaches(fs, few, later, p)
    ensures Reaches(fs, many, before, p)
  {
    var chain :| Chain(fs, few, later, chain) && chain[|chain|-1] == p;
    assert Chain(fs, many, before, chain);
  }

  lemma OneFolder(fs: FileSystem, n: Name, start: set<string>, loaded: set<string>)
    requires n.path in fs.existing && n.path !in start && n.path !in fs.files
    requires Progress(fs, fs.Folder(n.path), fs.Folder(n.path), start + {n.path}, loaded)
    ensures Progress(fs, [n], [n], start, loaded)
  {
    if fs.PlainNames() && start <= fs.existing {
      forall p | p in loaded && p !in start ensures New(fs, [n], start, loaded, p) {
        if p == n.path {
          ReachesRoot(fs, [n], start, n);
        } else {
          assert New(fs, fs.Folder(n.path), start + {n.path}, loaded, p);
          ReachesThrough(fs, [n], start, n, fs.Folder(n.path), start + {n.path}, p);
        }
      }
    }
  }

  /** A file is loaded with what it names before and after it, less what was loaded already. */
  lemma OneFile(fs: FileSystem, n: Name, start: set<string>, pre: seq<Name>, second: set<string>, post: seq<Name>,
                loaded: set<string>)
    requires n.path in fs.existing && n.path !in start && n.path in fs.files
    requires forall m :: m in pre <==> m in fs.Pre(n.path) && m.raw !in start + {n.path}
    requires forall m :: m in post <==> m in fs.Post(n.path) && m.raw !in start + {n.path}
    requires if |pre| > 0 then Progress(fs, pre, pre, start + {n.path}, second) else second == start + {n.path}
    requires if |post| > 0 then Progress(fs, post, post, second, loaded) else loaded == second
    requires second <= start + {n.path} + fs.existing
    ensures Progress(fs, [n], [n], start, loaded)
  {
    if fs.PlainNames() && start <= fs.existing {
      assert second <= fs.existing;
      forall m | m in fs.Mentions(n.path) && m.path in fs.existing ensures m.path in loaded {
        assert m in fs.Pre(n.path) || m in fs.Post(n.path);
      }
      forall p | p in loaded && p !in start ensures New(fs, [n], start, loaded, p) {
        if p == n.path {
          ReachesRoot(fs, [n], start, n);
        } else if p in second {
          assert New(fs, pre, start + {n.path}, second, p);
          ReachesThrough(fs, [n], start, n, pre, start + {n.path}, p);
        } else {
          assert New(fs, post, second, loaded, p);
          ReachesThrough(fs, [n], start, n, post, second, p);
        }
      }
    }
  }
}

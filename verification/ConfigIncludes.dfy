/** Configuration includes: a depth-first walk of the include graph that orders
    every file after the files it includes and rejects cycles. */
module ConfigIncludes {
  import opened Wrappers
  import opened Graphs

  type Path = string

  /** `canonical` resolves the paths that exist. `manifests` gives, for every
      canonical file that can be read, the include paths it lists, joined to
      its directory. */
  datatype FileSystem = FileSystem(canonical: map<Path, Path>, manifests: map<Path, seq<Path>>)

  datatype LoadError =
    | Unresolved(path: Path)
    | Unreadable(file: Path)
    | IncludeCycle(file: Path)
    | NoFiles

  function Edges(fs: FileSystem): map<Path, set<Path>> {
    map c | c in fs.manifests :: set p | p in fs.manifests[c] && p in fs.canonical :: fs.canonical[p]
  }

  /** The file and every path it includes can be resolved and read. */
  predicate Readable(fs: FileSystem, file: Path) {
    file in fs.manifests && forall p | p in fs.manifests[file] :: p in fs.canonical
  }

  ghost predicate Below(fs: FileSystem, a: Path, b: Path) {
    a in Edges(fs) && exists c :: c in Edges(fs)[a] && Reaches(Edges(fs), c, b)
  }

  ghost predicate OnCycle(fs: FileSystem, file: Path) {
    Below(fs, file, file)
  }

  /** The files an include walk from `paths` comes to. */
  ghost predicate Reachable(fs: FileSystem, paths: seq<Path>, file: Path) {
    exists p :: p in paths && p in fs.canonical && Reaches(Edges(fs), fs.canonical[p], file)
  }

  ghost predicate AllReadable(fs: FileSystem, paths: seq<Path>) {
    && (forall p | p in paths :: p in fs.canonical)
    && forall c | Reachable(fs, paths, c) :: Readable(fs, c)
  }

  ghost predicate SomeCycle(fs: FileSystem, paths: seq<Path>) {
    exists c :: Reachable(fs, paths, c) && OnCycle(fs, c)
  }

  predicate NoDuplicates(s: seq<Path>) {
    forall i, j | 0 <= i < j < |s| :: s[i] != s[j]
  }

  /** Every file is readable and comes after all it includes. */
  predicate IncludesFirst(fs: FileSystem, s: seq<Path>) {
    forall i | 0 <= i < |s| :: Readable(fs, s[i]) && Edges(fs)[s[i]] <= (set c | c in s[..i])
  }

  /** What an error says about the files below `paths` is true. */
  ghost predicate Justified(fs: FileSystem, paths: seq<Path>, e: LoadError) {
    match e
    case Unresolved(p) => p !in fs.canonical &&
      (p in paths || exists c :: Reachable(fs, paths, c) && c in fs.manifests && p in fs.manifests[c])
    case Unreadable(c) => Reachable(fs, paths, c) && c !in fs.manifests
    case IncludeCycle(c) => Reachable(fs, paths, c) && OnCycle(fs, c)
    case NoFiles => paths == []
  }

  lemma BelowNext(fs: FileSystem, a: Path, b: Path, c: Path)
    requires Below(fs, a, b) || a == b
    requires b in Edges(fs) && c in Edges(fs)[b]
    ensures Below(fs, a, c)
  {
    var E := Edges(fs);
    if Below(fs, a, b) {
      var d :| d in E[a] && Reaches(E, d, b);
      ReachesNext(E, d, b, c);
    } else {
      ReachesSelf(E, c);
    }
  }

  lemma JustifiedFromChild(fs: FileSystem, path: Path, file: Path, child: Path, e: LoadError)
    requires path in fs.canonical && fs.canonical[path] == file && file in fs.manifests
    requires child in fs.manifests[file] && Justified(fs, [child], e) && !e.NoFiles?
    ensures Justified(fs, [path], e)
  {
    ReachesSelf(Edges(fs), file);
    assert path in [path];
    assert Reachable(fs, [path], file);
    forall c | Reachable(fs, [child], c) ensures Reachable(fs, [path], c) {
      ReachableThroughChild(fs, path, file, child, c);
    }
  }

  lemma ReachableThroughChild(fs: FileSystem, path: Path, file: Path, child: Path, c: Path)
    requires path in fs.canonical && fs.canonical[path] == file && file in fs.manifests
    requires child in fs.manifests[file] && Reachable(fs, [child], c)
    ensures Reachable(fs, [path], c)
  {
    var E := Edges(fs);
    var top := fs.canonical[child];
    assert top in E[file];
    ReachesSelf(E, file);
    ReachesNext(E, file, file, top);
    ReachesTransitive(E, file, top, c);
    assert path in [path];
  }

  class Loader {
    const fs: FileSystem
    var ordered: seq<Path>
    var visiting: set<Path>
    var visited: set<Path>

    ghost predicate Valid()
      reads this
    {
      && visited == (set c | c in ordered)
      && NoDuplicates(ordered)
      && IncludesFirst(fs, ordered)
      && visiting !! visited
    }

    constructor (fs: FileSystem)
      ensures this.fs == fs && ordered == [] && visiting == {} && Valid()
    {
      this.fs := fs;
      ordered, visiting, visited := [], {}, {};
    }

    method CollectConfigPaths(path: Path) returns (r: Result<(), LoadError>)
      requires Valid()
      requires path in fs.canonical ==> forall v | v in visiting :: Below(fs, v, fs.canonical[path])
      modifies this
      ensures r.Ok? ==> Valid() && visiting == old(visiting) && old(visited) <= visited
      ensures r.Ok? ==> path in fs.canonical && fs.canonical[path] in visited
      ensures r.Ok? ==> forall c | c in visited - old(visited) :: Reachable(fs, [path], c)
      ensures r.Err? ==> Justified(fs, [path], r.error) && !r.error.NoFiles?
      decreases fs.canonical.Values - visiting, 1
    {
      if path !in fs.canonical {
        return Err(Unresolved(path));
      }
      var file := fs.canonical[path];
      assert path in [path];
      assert Reachable(fs, [path], file) by { ReachesSelf(Edges(fs), file); }
      if file in visited {
        return Ok(());
      }
      if file in visiting {
        return Err(IncludeCycle(file));
      }
      visiting := visiting + {file};
      if file !in fs.manifests {
        return Err(Unreadable(file));
      }
      r := CollectIncludes(path, file);
      if r.Ok? {
        visiting := visiting - {file};
        Append(file);
      }
    }

    /** The loop over a file's include list. */
    method CollectIncludes(path: Path, file: Path) returns (r: Result<(), LoadError>)
      requires Valid()
      requires path in fs.canonical && file == fs.canonical[path]
      requires file in fs.manifests && file in visiting && file !in visited
      requires forall v | v in visiting :: v == file || Below(fs, v, file)
      modifies this
      ensures r.Ok? ==> Valid() && visiting == old(visiting) && old(visited) <= visited
      ensures r.Ok? ==> Readable(fs, file) && Edges(fs)[file] <= visited
      ensures r.Ok? ==> forall c | c in visited - old(visited) :: Reachable(fs, [path], c)
      ensures r.Err? ==> Justified(fs, [path], r.error) && !r.error.NoFiles?
      decreases fs.canonical.Values - visiting, 2
    {
      ghost var stack, before := visiting, visited;
      var includes := fs.manifests[file];
      for i := 0 to |includes|
        invariant Valid() && visiting == stack && before <= visited
        invariant forall c | c in visited - before :: Reachable(fs, [path], c)
        invariant forall p | p in includes[..i] :: p in fs.canonical && fs.canonical[p] in visited
      {
        var p := includes[i];
        assert includes[..i + 1] == includes[..i] + [p];
        if p in fs.canonical {
          assert fs.canonical[p] in Edges(fs)[file];
          forall v | v in visiting ensures Below(fs, v, fs.canonical[p]) {
            BelowNext(fs, v, file, fs.canonical[p]);
          }
        }
        ghost var mid := visited;
        r := CollectConfigPaths(p);
        if r.Err? {
          JustifiedFromChild(fs, path, file, p, r.error);
          return;
        }
        forall c | c in visited - mid ensures Reachable(fs, [path], c) {
          ReachableThroughChild(fs, path, file, p, c);
        }
      }
      assert includes[..|includes|] == includes;
      return Ok(());
    }

    method Append(file: Path)
      requires Valid() && file !in visited && file !in visiting && Readable(fs, file)
      requires Edges(fs)[file] <= visited
      modifies this`ordered, this`visited
      ensures Valid() && ordered == old(ordered) + [file] && file in visited
    {
      ghost var before := ordered;
      visited := visited + {file};
      ordered := ordered + [file];
      assert ordered[..|before|] == before;
      forall i | 0 <= i < |ordered|
        ensures Readable(fs, ordered[i]) && Edges(fs)[ordered[i]] <= (set c | c in ordered[..i])
      {
        if i < |before| {
          assert ordered[..i] == before[..i];
        }
      }
    }
  }

  // ----- What an order tells about the graph ----------------------------

  lemma {:induction false} PathDescends(fs: FileSystem, s: seq<Path>, p: seq<Path>, i: nat, k: nat)
    requires IncludesFirst(fs, s) && NoDuplicates(s) && IsPath(Edges(fs), p) && k < |p|
    requires i < |s| && p[0] == s[i]
    ensures exists j :: 0 <= j <= i && s[j] == p[k] && (k > 0 ==> j < i)
  {
    if k > 0 {
      PathDescends(fs, s, p, i, k - 1);
      var j :| 0 <= j <= i && s[j] == p[k - 1];
      assert p[k] in Edges(fs)[p[k - 1]];
      assert p[k] in s[..j];
      var m :| 0 <= m < j && s[m] == p[k];
    }
  }

  lemma OrderedHasNoCycle(fs: FileSystem, s: seq<Path>, i: nat)
    requires IncludesFirst(fs, s) && NoDuplicates(s) && i < |s|
    ensures !OnCycle(fs, s[i])
  {
    if OnCycle(fs, s[i]) {
      var E := Edges(fs);
      var c :| c in E[s[i]] && Reaches(E, c, s[i]);
      assert c in s[..i];
      var j :| 0 <= j < i && s[j] == c;
      var p :| Connects(E, p, c, s[i]);
      PathDescends(fs, s, p, j, |p| - 1);
      assert false;
    }
  }

  lemma OrderHoldsReachable(fs: FileSystem, s: seq<Path>, paths: seq<Path>, c: Path)
    requires IncludesFirst(fs, s) && NoDuplicates(s) && Reachable(fs, paths, c)
    requires forall p | p in paths :: p in fs.canonical && fs.canonical[p] in s
    ensures c in s
  {
    var p :| p in paths && p in fs.canonical && Reaches(Edges(fs), fs.canonical[p], c);
    var all := set x | x in s;
    forall x | x in all && x in Edges(fs) ensures Edges(fs)[x] <= all {
      var i :| 0 <= i < |s| && s[i] == x;
      assert forall y | y in s[..i] :: y in s;
    }
    ClosedHoldsReachable(Edges(fs), all, fs.canonical[p], c);
  }

  /** The path loop of `from_files`. Loading succeeds exactly when every
      reachable file is readable and no cycle is reachable, and then the order
      holds each reachable file once, after the files it includes. */
  method FromFiles(fs: FileSystem, paths: seq<Path>) returns (r: Result<seq<Path>, LoadError>)
    ensures r.Ok? <==> paths != [] && AllReadable(fs, paths) && !SomeCycle(fs, paths)
    ensures r.Ok? ==> NoDuplicates(r.value) && IncludesFirst(fs, r.value)
    ensures r.Ok? ==> forall c :: c in r.value <==> Reachable(fs, paths, c)
    ensures r.Err? ==> Justified(fs, paths, r.error)
    ensures paths != [] && AllReadable(fs, paths) ==>
              (r.Err? <==> SomeCycle(fs, paths)) && (r.Err? ==> r.error.IncludeCycle?)
  {
    var loader := new Loader(fs);
    for i := 0 to |paths|
      invariant loader.fs == fs && loader.Valid() && loader.visiting == {}
      invariant forall p | p in paths[..i] :: p in fs.canonical && fs.canonical[p] in loader.visited
      invariant forall c | c in loader.ordered :: Reachable(fs, paths, c)
    {
      var p := paths[i];
      assert paths[..i + 1] == paths[..i] + [p];
      ghost var before := loader.visited;
      var one := loader.CollectConfigPaths(p);
      forall c | Reachable(fs, [p], c) ensures Reachable(fs, paths, c) {
        assert p in paths;
      }
      if one.Err? {
        FailureIsReal(fs, paths, one.error);
        return Err(one.error);
      }
      forall c | c in loader.ordered ensures Reachable(fs, paths, c) {
        assert c in loader.visited;
      }
    }
    assert paths[..|paths|] == paths;
    assert paths != [] ==> paths[0] in paths;
    if loader.ordered == [] {
      return Err(NoFiles);
    }
    SuccessIsReal(fs, paths, loader.ordered);
    return Ok(loader.ordered);
  }

  lemma FailureIsReal(fs: FileSystem, paths: seq<Path>, e: LoadError)
    requires Justified(fs, paths, e)
    ensures paths == [] || !AllReadable(fs, paths) || SomeCycle(fs, paths)
  {
  }

  lemma SuccessIsReal(fs: FileSystem, paths: seq<Path>, s: seq<Path>)
    requires IncludesFirst(fs, s) && NoDuplicates(s) && s != []
    requires forall p | p in paths :: p in fs.canonical && fs.canonical[p] in s
    requires forall c | c in s :: Reachable(fs, paths, c)
    ensures paths != [] && AllReadable(fs, paths) && !SomeCycle(fs, paths)
    ensures forall c :: c in s <==> Reachable(fs, paths, c)
  {
    assert Reachable(fs, paths, s[0]);
    forall c | Reachable(fs, paths, c) ensures c in s && Readable(fs, c) && !OnCycle(fs, c) {
      OrderHoldsReachable(fs, s, paths, c);
      var i :| 0 <= i < |s| && s[i] == c;
      OrderedHasNoCycle(fs, s, i);
    }
  }
}

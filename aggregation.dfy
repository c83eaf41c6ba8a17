/** `read_all_configs`: discover the configuration files under one or more
    directories, sort the paths, and fold the merge function over the files'
    contents starting from the empty mapping. */
module Aggregation {
  import opened Paths
  import opened Formats
  import opened ConfigValues
  import opened FileSystem
  import opened Errors
  import opened ConfigReaders
  import opened Discovery
  import opened Ordering

  /** The merge applied to the running result and each file's contents. Its
      precedence rules are not part of this model, so nothing is assumed of it. */
  type Merge = (Value, Value) -> Value

  /** Reading and merging `paths` in order onto `acc`; the first file that
      fails to load ends the fold with its error. */
  function Aggregate(fs: Fs, paths: seq<Path>, acc: Value, codecs: Codecs, merge: Merge): Result<Value>
    decreases |paths|
  {
    if paths == [] then Ok(acc)
    else match ReadConfigFile(fs, paths[0], codecs)
      case Err(e) => Err(e)
      case Ok(v) => Aggregate(fs, paths[1..], merge(acc, v), codecs, merge)
  }

  /** What `read_all_configs` computes: discovery, then the sort, then the fold. */
  function ReadAllConfigsSpec(fs: Fs, cwd: Path, arg: DirsArg, allowed: seq<Format>,
                              codecs: Codecs, merge: Merge): Result<Value>
  {
    Aggregate(fs, Sort(Discover(fs, cwd, DirList(arg), allowed)), EMPTY_DICT, codecs, merge)
  }

  /** The first loop of `read_all_configs`: the path list grows directory by
      directory. */
  method CollectPaths(fs: Fs, cwd: Path, dirs: seq<Path>, allowed: seq<Format>) returns (paths: seq<Path>)
    ensures paths == Discover(fs, cwd, dirs, allowed)
  {
    paths := [];
    for i := 0 to |dirs|
      invariant paths == Discover(fs, cwd, dirs[..i], allowed)
    {
      ghost var done := dirs[..i];
      var dir := ResolveDir(cwd, dirs[i]);
      paths := AppendMatches(fs, dir, allowed, paths);
      if IsDir(fs, dir) {
        AppendAssoc(Discover(fs, cwd, done, allowed), AllowedGlobs(fs, dir, Yaml, allowed), AllowedGlobs(fs, dir, Json, allowed),
                    AllowedGlobs(fs, dir, Toml, allowed), AllowedGlobs(fs, dir, Ini, allowed));
      }
      DiscoverSnoc(fs, cwd, done, dirs[i], allowed);
      assert dirs[..i + 1] == done + [dirs[i]];
    }
    assert dirs[..|dirs|] == dirs;
  }

  /** The body of that loop for one resolved directory: when it exists, the
      globs of each allowed format are appended, format by format. */
  method AppendMatches(fs: Fs, dir: Path, allowed: seq<Format>, before: seq<Path>) returns (paths: seq<Path>)
    ensures !IsDir(fs, dir) ==> paths == before
    ensures IsDir(fs, dir) ==>
              paths == before + AllowedGlobs(fs, dir, Yaml, allowed) + AllowedGlobs(fs, dir, Json, allowed)
                       + AllowedGlobs(fs, dir, Toml, allowed) + AllowedGlobs(fs, dir, Ini, allowed)
  {
    paths := before;
    if IsDir(fs, dir) {
      if Yaml in allowed {
        paths := paths + Glob(fs, dir, "yaml");
        paths := paths + Glob(fs, dir, "yml");
        AppendAssoc3(before, Glob(fs, dir, "yaml"), Glob(fs, dir, "yml"));
      }
      ghost var afterYaml := paths;
      assert afterYaml == before + AllowedGlobs(fs, dir, Yaml, allowed);
      if Json in allowed {
        paths := paths + Glob(fs, dir, "json");
      }
      ghost var afterJson := paths;
      assert afterJson == afterYaml + AllowedGlobs(fs, dir, Json, allowed);
      if Toml in allowed {
        paths := paths + Glob(fs, dir, "toml");
      }
      ghost var afterToml := paths;
      assert afterToml == afterJson + AllowedGlobs(fs, dir, Toml, allowed);
      if Ini in allowed {
        paths := paths + Glob(fs, dir, "ini");
        paths := paths + Glob(fs, dir, "cfg");
        AppendAssoc3(afterToml, Glob(fs, dir, "ini"), Glob(fs, dir, "cfg"));
      }
      assert paths == afterToml + AllowedGlobs(fs, dir, Ini, allowed);
    }
  }

  /** `read_all_configs`: collect the paths, sort them, and merge the
      accumulator with each file in turn; the first load failure propagates. */
  method ReadAllConfigs(fs: Fs, cwd: Path, arg: DirsArg, allowed: seq<Format>,
                        codecs: Codecs, merge: Merge) returns (r: Result<Value>)
    ensures r == ReadAllConfigsSpec(fs, cwd, arg, allowed, codecs, merge)
  {
    var paths := CollectPaths(fs, cwd, DirList(arg), allowed);
    var sorted := Sort(paths);
    var config := EMPTY_DICT;
    for j := 0 to |sorted|
      invariant Aggregate(fs, sorted, EMPTY_DICT, codecs, merge)
             == Aggregate(fs, sorted[j..], config, codecs, merge)
    {
      var data := ReadConfigFile(fs, sorted[j], codecs);
      if data.Err? {
        return Err(data.error);
      }
      config := merge(config, data.value);
      assert sorted[j..][1..] == sorted[j + 1..];
    }
    assert sorted[|sorted|..] == [];
    return Ok(config);
  }

  lemma AppendAssoc3<T>(a: seq<T>, b: seq<T>, c: seq<T>)
    ensures a + b + c == a + (b + c)
  {
  }

  lemma AppendAssoc<T>(a: seq<T>, b: seq<T>, c: seq<T>, d: seq<T>, e: seq<T>)
    ensures a + b + c + d + e == a + (b + c + d + e)
  {
  }

  /** Every path in `paths` loads. */
  predicate AllLoad(fs: Fs, paths: seq<Path>, codecs: Codecs)
  {
    forall i :: 0 <= i < |paths| ==> ReadConfigFile(fs, paths[i], codecs).Ok?
  }

  lemma AllLoadTail(fs: Fs, paths: seq<Path>, codecs: Codecs)
    requires paths != [] && AllLoad(fs, paths, codecs)
    ensures AllLoad(fs, paths[1..], codecs)
  {
    forall i | 0 <= i < |paths[1..]| ensures ReadConfigFile(fs, paths[1..][i], codecs).Ok? {
      assert paths[1..][i] == paths[i + 1];
    }
  }

  /** The loaded contents of `paths`, in order. */
  function Loaded(fs: Fs, paths: seq<Path>, codecs: Codecs): seq<Value>
    requires AllLoad(fs, paths, codecs)
  {
    if paths == [] then []
    else
      AllLoadTail(fs, paths, codecs);
      [ReadConfigFile(fs, paths[0], codecs).value] + Loaded(fs, paths[1..], codecs)
  }

  /** The left fold `merge(...merge(merge(acc, v1), v2)..., vn)`. */
  function FoldMerge(acc: Value, vs: seq<Value>, merge: Merge): Value
  {
    if vs == [] then acc else merge(FoldMerge(acc, vs[..|vs| - 1], merge), vs[|vs| - 1])
  }

  lemma {:induction false} FoldMergeCons(acc: Value, v: Value, vs: seq<Value>, merge: Merge)
    ensures FoldMerge(acc, [v] + vs, merge) == FoldMerge(merge(acc, v), vs, merge)
    decreases |vs|
  {
    if vs == [] {
      assert [v] + vs == [v];
      assert [v][..0] == [];
    } else {
      var init := vs[..|vs| - 1];
      assert ([v] + vs)[..|[v] + vs| - 1] == [v] + init;
      FoldMergeCons(acc, v, init, merge);
    }
  }

  /** When every file loads, the result is the left fold of the merge over
      the files' contents in the order given. */
  lemma {:induction false} AggregateIsLeftFold(fs: Fs, paths: seq<Path>, acc: Value, codecs: Codecs, merge: Merge)
    requires AllLoad(fs, paths, codecs)
    ensures Aggregate(fs, paths, acc, codecs, merge) == Ok(FoldMerge(acc, Loaded(fs, paths, codecs), merge))
    decreases |paths|
  {
    if paths != [] {
      var v := ReadConfigFile(fs, paths[0], codecs).value;
      AllLoadTail(fs, paths, codecs);
      AggregateIsLeftFold(fs, paths[1..], merge(acc, v), codecs, merge);
      FoldMergeCons(acc, v, Loaded(fs, paths[1..], codecs), merge);
    }
  }

  /** A load failure anywhere ends the fold with the error of the first path
      that fails; when none fails, the fold succeeds. */
  lemma {:induction false} AggregateStopsAtFirstError(fs: Fs, paths: seq<Path>, acc: Value, codecs: Codecs, merge: Merge, k: nat)
    requires k < |paths| && ReadConfigFile(fs, paths[k], codecs).Err?
    requires AllLoad(fs, paths[..k], codecs)
    ensures Aggregate(fs, paths, acc, codecs, merge) == Err(ReadConfigFile(fs, paths[k], codecs).error)
    decreases k
  {
    if k > 0 {
      assert paths[..k][0] == paths[0];
      var v := ReadConfigFile(fs, paths[0], codecs).value;
      var pre := paths[1..][..k - 1];
      assert AllLoad(fs, pre, codecs) by {
        forall i | 0 <= i < |pre| ensures ReadConfigFile(fs, pre[i], codecs).Ok? {
          assert pre[i] == paths[..k][i + 1];
        }
      }
      AggregateStopsAtFirstError(fs, paths[1..], merge(acc, v), codecs, merge, k - 1);
    }
  }

  /** The fold fails exactly when some path fails to load, and then with an
      error one of the paths produced. */
  lemma {:induction false} AggregateFailsIffSomeFails(fs: Fs, paths: seq<Path>, acc: Value, codecs: Codecs, merge: Merge)
    ensures Aggregate(fs, paths, acc, codecs, merge).Err? <==> !AllLoad(fs, paths, codecs)
    ensures Aggregate(fs, paths, acc, codecs, merge).Err? ==>
              exists i :: 0 <= i < |paths|
                && ReadConfigFile(fs, paths[i], codecs) == Err(Aggregate(fs, paths, acc, codecs, merge).error)
    decreases |paths|
  {
    if paths != [] {
      var rest := paths[1..];
      forall i | 0 <= i < |rest| ensures rest[i] == paths[i + 1] { }
      match ReadConfigFile(fs, paths[0], codecs)
      case Err(e) => {}
      case Ok(v) => {
        AggregateFailsIffSomeFails(fs, rest, merge(acc, v), codecs, merge);
        if !AllLoad(fs, paths, codecs) {
          var i :| 0 <= i < |paths| && ReadConfigFile(fs, paths[i], codecs).Err?;
          assert ReadConfigFile(fs, rest[i - 1], codecs).Err?;
        }
        if Aggregate(fs, rest, merge(acc, v), codecs, merge).Err? {
          var i :| 0 <= i < |rest|
            && ReadConfigFile(fs, rest[i], codecs) == Err(Aggregate(fs, rest, merge(acc, v), codecs, merge).error);
          assert ReadConfigFile(fs, paths[i + 1], codecs) == Err(Aggregate(fs, paths, acc, codecs, merge).error);
        }
      }
    }
  }

  /** With no file discovered the result is the empty mapping. */
  lemma NothingDiscoveredGivesEmpty(fs: Fs, cwd: Path, arg: DirsArg, allowed: seq<Format>, codecs: Codecs, merge: Merge)
    requires Discover(fs, cwd, DirList(arg), allowed) == []
    ensures ReadAllConfigsSpec(fs, cwd, arg, allowed, codecs, merge) == Ok(EMPTY_DICT)
  {
    assert Sort([]) == [] by {
      assert multiset(Sort([])) == multiset{};
    }
  }

  /** Directory arguments none of which exists give the empty mapping, and
      no error. */
  lemma {:induction false} MissingDirsGiveEmpty(fs: Fs, cwd: Path, dirs: seq<Path>, allowed: seq<Format>, codecs: Codecs, merge: Merge)
    requires forall i :: 0 <= i < |dirs| ==> !IsDir(fs, ResolveDir(cwd, dirs[i]))
    ensures ReadAllConfigsSpec(fs, cwd, Many(dirs), allowed, codecs, merge) == Ok(EMPTY_DICT)
  {
    assert Discover(fs, cwd, dirs, allowed) == [] by {
      NoneDiscovered(fs, cwd, dirs, allowed);
    }
    NothingDiscoveredGivesEmpty(fs, cwd, Many(dirs), allowed, codecs, merge);
  }

  lemma {:induction false} NoneDiscovered(fs: Fs, cwd: Path, dirs: seq<Path>, allowed: seq<Format>)
    requires forall i :: 0 <= i < |dirs| ==> !IsDir(fs, ResolveDir(cwd, dirs[i]))
    ensures Discover(fs, cwd, dirs, allowed) == []
    decreases |dirs|
  {
    if dirs != [] {
      var rest := dirs[1..];
      forall i | 0 <= i < |rest| ensures !IsDir(fs, ResolveDir(cwd, rest[i])) {
        assert rest[i] == dirs[i + 1];
      }
      NoneDiscovered(fs, cwd, rest, allowed);
      assert DirMatches(fs, ResolveDir(cwd, dirs[0]), allowed) == [];
      assert Discover(fs, cwd, dirs, allowed)
          == DirMatches(fs, ResolveDir(cwd, dirs[0]), allowed) + Discover(fs, cwd, rest, allowed);
    }
  }

  /** Files with equal contents read the same, so two file systems that differ
      only in listing order load every path alike. */
  lemma ReadConfigFileSameFiles(fs1: Fs, fs2: Fs, p: Path, codecs: Codecs)
    requires SameUpToListingOrder(fs1, fs2)
    ensures ReadConfigFile(fs1, p, codecs) == ReadConfigFile(fs2, p, codecs)
  {
  }

  lemma {:induction false} AggregateSameFiles(fs1: Fs, fs2: Fs, paths: seq<Path>, acc: Value, codecs: Codecs, merge: Merge)
    requires SameUpToListingOrder(fs1, fs2)
    ensures Aggregate(fs1, paths, acc, codecs, merge) == Aggregate(fs2, paths, acc, codecs, merge)
    decreases |paths|
  {
    if paths != [] {
      ReadConfigFileSameFiles(fs1, fs2, paths[0], codecs);
      if ReadConfigFile(fs1, paths[0], codecs).Ok? {
        AggregateSameFiles(fs1, fs2, paths[1..], merge(acc, ReadConfigFile(fs1, paths[0], codecs).value), codecs, merge);
      }
    }
  }

  /** The result does not depend on the order in which directories list their
      entries: the sort makes the fold order a function of the paths alone. */
  lemma AggregationIgnoresListingOrder(fs1: Fs, fs2: Fs, cwd: Path, arg: DirsArg, allowed: seq<Format>, codecs: Codecs, merge: Merge)
    requires SameUpToListingOrder(fs1, fs2)
    ensures ReadAllConfigsSpec(fs1, cwd, arg, allowed, codecs, merge)
         == ReadAllConfigsSpec(fs2, cwd, arg, allowed, codecs, merge)
  {
    DiscoverIgnoresListingOrder(fs1, fs2, cwd, DirList(arg), allowed);
    SortIgnoresInputOrder(Discover(fs1, cwd, DirList(arg), allowed), Discover(fs2, cwd, DirList(arg), allowed));
    AggregateSameFiles(fs1, fs2, Sort(Discover(fs2, cwd, DirList(arg), allowed)), EMPTY_DICT, codecs, merge);
  }

  /** No discovered file is ever rejected for its suffix: a failure is a
      matched entry that is not a regular file, or a decoder error reported
      against one of the allowed formats. */
  lemma AggregationErrors(fs: Fs, cwd: Path, arg: DirsArg, allowed: seq<Format>, codecs: Codecs, merge: Merge)
    requires EntryNamesValid(fs)
    requires ReadAllConfigsSpec(fs, cwd, arg, allowed, codecs, merge).Err?
    ensures var e := ReadAllConfigsSpec(fs, cwd, arg, allowed, codecs, merge).error;
            (e.FileNotFound? && !IsFile(fs, e.path)) || (e.DecodeFailed? && e.format in allowed)
  {
    var found := Discover(fs, cwd, DirList(arg), allowed);
    var sorted := Sort(found);
    AggregateFailsIffSomeFails(fs, sorted, EMPTY_DICT, codecs, merge);
    var e := ReadAllConfigsSpec(fs, cwd, arg, allowed, codecs, merge).error;
    var i :| 0 <= i < |sorted| && ReadConfigFile(fs, sorted[i], codecs) == Err(e);
    var p := sorted[i];
    assert p in multiset(found);
    DiscoveredSuffixAllowed(fs, cwd, DirList(arg), allowed, p);
    ReadConfigFileOutcomes(fs, p, codecs);
  }

  /** An entry that matches a glob but is not a regular file (a directory
      named `x.yaml`, a dangling link) makes the whole read fail. */
  lemma NonFileMatchAborts(fs: Fs, cwd: Path, arg: DirsArg, allowed: seq<Format>, codecs: Codecs, merge: Merge, p: Path)
    requires p in Discover(fs, cwd, DirList(arg), allowed) && !IsFile(fs, p)
    ensures ReadAllConfigsSpec(fs, cwd, arg, allowed, codecs, merge).Err?
  {
    var sorted := Sort(Discover(fs, cwd, DirList(arg), allowed));
    assert p in multiset(sorted);
    var i :| 0 <= i < |sorted| && sorted[i] == p;
    AggregateFailsIffSomeFails(fs, sorted, EMPTY_DICT, codecs, merge);
  }
}

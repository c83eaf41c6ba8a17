/** The discovery half of `read_all_configs`: resolving the directory
    arguments and globbing each existing directory for the allowed formats'
    extensions. */
module Discovery {
  import opened Text
  import opened Paths
  import opened Wrappers
  import opened Formats
  import opened FileSystem
  import opened Lists

  /** `configs_dir`: a single directory or a list of them. */
  datatype DirsArg = One(dir: Path) | Many(dirs: seq<Path>)

  /** A non-list argument is wrapped into a one-element list. */
  function DirList(arg: DirsArg): seq<Path>
  {
    match arg
    case One(d) => [d]
    case Many(ds) => ds
  }

  /** The default `allowed_formats`: every format but INI. */
  const DEFAULT_ALLOWED_FORMATS: seq<Format> := [Yaml, Json, Toml]

  /** `glob`'s test of a directory entry against `*.<ext>`: case-sensitive,
      and `*` never matches a leading dot, so hidden entries are skipped. */
  predicate GlobMatches(name: string, ext: string)
  {
    |name| > |ext| + 1 && name[0] != '.' && name[|name| - |ext| - 1..] == "." + ext
  }

  /** The matches among a listing, joined onto the directory, in listing order. */
  function GlobIn(dir: Path, names: seq<string>, ext: string): seq<Path>
  {
    if names == [] then []
    else (if GlobMatches(names[0], ext) then [Join(dir, names[0])] else [])
         + GlobIn(dir, names[1..], ext)
  }

  /** `glob.glob(os.path.join(dir, "*.<ext>"))`. */
  function Glob(fs: Fs, dir: Path, ext: string): seq<Path>
  {
    if IsDir(fs, dir) then GlobIn(dir, fs[dir].children, ext) else []
  }

  /** The paths one directory contributes: nothing when it is not a directory,
      otherwise the globs of each allowed format, in the source's order. */
  function DirMatches(fs: Fs, dir: Path, allowed: seq<Format>): seq<Path>
  {
    if !IsDir(fs, dir) then []
    else
      AllowedGlobs(fs, dir, Yaml, allowed) + AllowedGlobs(fs, dir, Json, allowed)
      + AllowedGlobs(fs, dir, Toml, allowed) + AllowedGlobs(fs, dir, Ini, allowed)
  }

  /** A relative directory is joined onto the working directory. */
  function ResolveDir(cwd: Path, dir: Path): Path
  {
    if IsAbsolute(dir) then dir else Join(cwd, dir)
  }

  /** What one directory argument contributes once resolved. */
  function Contribution(fs: Fs, cwd: Path, allowed: seq<Format>): Path -> seq<Path>
  {
    d => DirMatches(fs, ResolveDir(cwd, d), allowed)
  }

  /** The unsorted `_file_paths` list after the loop over `dirs`: the
      contributions of the arguments, concatenated in argument order. */
  function Discover(fs: Fs, cwd: Path, dirs: seq<Path>, allowed: seq<Format>): seq<Path>
  {
    ConcatMap(dirs, Contribution(fs, cwd, allowed))
  }

  /** A path is globbed exactly when it joins the directory with a listed
      name that matches the pattern. */
  lemma {:induction false} GlobInMember(dir: Path, names: seq<string>, ext: string, p: Path)
    ensures p in GlobIn(dir, names, ext)
        <==> exists i :: 0 <= i < |names| && GlobMatches(names[i], ext) && p == Join(dir, names[i])
  {
    if names != [] {
      GlobInMember(dir, names[1..], ext, p);
      if exists i :: 0 <= i < |names| && GlobMatches(names[i], ext) && p == Join(dir, names[i]) {
        var i :| 0 <= i < |names| && GlobMatches(names[i], ext) && p == Join(dir, names[i]);
        if i > 0 { assert names[1..][i - 1] == names[i]; }
      }
      if exists i :: 0 <= i < |names[1..]| && GlobMatches(names[1..][i], ext) && p == Join(dir, names[1..][i]) {
        var i :| 0 <= i < |names[1..]| && GlobMatches(names[1..][i], ext) && p == Join(dir, names[1..][i]);
        assert names[i + 1] == names[1..][i];
      }
    }
  }

  /** The globs one format contributes, read off the extension table. */
  function FormatGlobs(fs: Fs, dir: Path, f: Format): seq<Path>
  {
    match f
    case Yaml => Glob(fs, dir, "yaml") + Glob(fs, dir, "yml")
    case Json => Glob(fs, dir, "json")
    case Toml => Glob(fs, dir, "toml")
    case Ini => Glob(fs, dir, "ini") + Glob(fs, dir, "cfg")
  }

  function AllowedGlobs(fs: Fs, dir: Path, f: Format, allowed: seq<Format>): seq<Path>
  {
    if f in allowed then FormatGlobs(fs, dir, f) else []
  }


  /** The paths one format contributes: a listed name matching one of the
      format's extensions, joined onto the directory. */
  lemma FormatGlobsMember(fs: Fs, dir: Path, f: Format, p: Path)
    requires IsDir(fs, dir)
    ensures p in FormatGlobs(fs, dir, f)
        <==> exists e, i :: e in GlobExtensions(f) && 0 <= i < |fs[dir].children|
               && GlobMatches(fs[dir].children[i], e) && p == Join(dir, fs[dir].children[i])
  {
    var names := fs[dir].children;
    var exts := GlobExtensions(f);
    forall e | e in exts ensures p in Glob(fs, dir, e)
        <==> exists i :: 0 <= i < |names| && GlobMatches(names[i], e) && p == Join(dir, names[i])
    {
      GlobInMember(dir, names, e, p);
    }
    assert p in FormatGlobs(fs, dir, f) <==> exists e :: e in exts && p in Glob(fs, dir, e) by {
      if |exts| == 1 {
        assert exts == [exts[0]];
        assert FormatGlobs(fs, dir, f) == Glob(fs, dir, exts[0]);
      } else {
        assert exts == [exts[0], exts[1]];
        assert FormatGlobs(fs, dir, f) == Glob(fs, dir, exts[0]) + Glob(fs, dir, exts[1]);
      }
    }
  }

  lemma AllowedGlobsMember(fs: Fs, dir: Path, allowed: seq<Format>, p: Path)
    requires IsDir(fs, dir)
    ensures p in DirMatches(fs, dir, allowed)
        <==> exists f :: f in allowed && p in FormatGlobs(fs, dir, f)
  {
    var y, j, t, n := AllowedGlobs(fs, dir, Yaml, allowed), AllowedGlobs(fs, dir, Json, allowed),
                      AllowedGlobs(fs, dir, Toml, allowed), AllowedGlobs(fs, dir, Ini, allowed);
    var d := DirMatches(fs, dir, allowed);
    assert d == y + j + t + n;
    assert p in d <==> p in y || p in j || p in t || p in n;
    if p in d {
      var f := if p in y then Yaml else if p in j then Json else if p in t then Toml else Ini;
      assert p in AllowedGlobs(fs, dir, f, allowed);
      assert f in allowed && p in FormatGlobs(fs, dir, f);
    } else {
      forall f | f in allowed ensures p !in FormatGlobs(fs, dir, f) {
        match f
        case Yaml => assert p !in y;
        case Json => assert p !in j;
        case Toml => assert p !in t;
        case Ini => assert p !in n;
      }
    }
  }

  /** Which paths a directory contributes, stated with the extension table:
      a listed name matching an extension of an allowed format. */
  lemma DirMatchesMember(fs: Fs, dir: Path, allowed: seq<Format>, p: Path)
    ensures p in DirMatches(fs, dir, allowed)
        <==> IsDir(fs, dir)
             && exists f, e, i :: f in allowed && e in GlobExtensions(f)
                  && 0 <= i < |fs[dir].children| && GlobMatches(fs[dir].children[i], e)
                  && p == Join(dir, fs[dir].children[i])
  {
    if IsDir(fs, dir) {
      AllowedGlobsMember(fs, dir, allowed, p);
      forall f ensures p in FormatGlobs(fs, dir, f)
          <==> exists e, i :: e in GlobExtensions(f) && 0 <= i < |fs[dir].children|
                 && GlobMatches(fs[dir].children[i], e) && p == Join(dir, fs[dir].children[i])
      {
        FormatGlobsMember(fs, dir, f, p);
      }
    }
  }

  /** A path is discovered exactly when one of the directory arguments,
      resolved against the working directory, contributes it. */
  lemma {:induction false} DiscoverMember(fs: Fs, cwd: Path, dirs: seq<Path>, allowed: seq<Format>, p: Path)
    ensures p in Discover(fs, cwd, dirs, allowed)
        <==> exists d :: d in dirs && p in DirMatches(fs, ResolveDir(cwd, d), allowed)
  {
    if dirs != [] {
      DiscoverMember(fs, cwd, dirs[1..], allowed, p);
      assert Discover(fs, cwd, dirs, allowed)
          == DirMatches(fs, ResolveDir(cwd, dirs[0]), allowed) + Discover(fs, cwd, dirs[1..], allowed);
      if exists d :: d in dirs && p in DirMatches(fs, ResolveDir(cwd, d), allowed) {
        var d :| d in dirs && p in DirMatches(fs, ResolveDir(cwd, d), allowed);
        if d != dirs[0] {
          assert d in dirs[1..];
        }
      }
    }
  }

  /** Appending one directory appends its matches. */
  lemma DiscoverSnoc(fs: Fs, cwd: Path, ds: seq<Path>, d: Path, allowed: seq<Format>)
    ensures Discover(fs, cwd, ds + [d], allowed)
         == Discover(fs, cwd, ds, allowed) + DirMatches(fs, ResolveDir(cwd, d), allowed)
  {
    ConcatMapConcat(ds, [d], Contribution(fs, cwd, allowed));
    assert ConcatMap([d], Contribution(fs, cwd, allowed)) == DirMatches(fs, ResolveDir(cwd, d), allowed);
  }

  lemma DiscoverConcat(fs: Fs, cwd: Path, a: seq<Path>, b: seq<Path>, allowed: seq<Format>)
    ensures Discover(fs, cwd, a + b, allowed) == Discover(fs, cwd, a, allowed) + Discover(fs, cwd, b, allowed)
  {
    ConcatMapConcat(a, b, Contribution(fs, cwd, allowed));
  }

  /** A directory argument that does not exist is skipped: removing it from
      the list changes nothing, and no error arises from it. */
  lemma MissingDirSkipped(fs: Fs, cwd: Path, before: seq<Path>, d: Path, after: seq<Path>, allowed: seq<Format>)
    requires !IsDir(fs, ResolveDir(cwd, d))
    ensures Discover(fs, cwd, before + [d] + after, allowed) == Discover(fs, cwd, before + after, allowed)
  {
    DiscoverSnoc(fs, cwd, [], d, allowed);
    assert [] + [d] == [d];
    DiscoverConcat(fs, cwd, before + [d], after, allowed);
    DiscoverSnoc(fs, cwd, before, d, allowed);
    DiscoverConcat(fs, cwd, before, after, allowed);
  }

  /** Listed names are single path components. */
  predicate EntryNamesValid(fs: Fs)
  {
    forall dir :: dir in fs && fs[dir].Directory? ==>
      forall i :: 0 <= i < |fs[dir].children| ==> IsEntryName(fs[dir].children[i])
  }

  /** A globbed name's suffix is exactly the extension it was globbed for. */
  lemma GlobbedSuffix(dir: Path, name: string, e: string, f: Format)
    requires IsEntryName(name) && e in GlobExtensions(f) && GlobMatches(name, e)
    ensures FormatOfSuffix(Lower(Suffix(Join(dir, name)))) == Some(f)
  {
    GlobExtensionsShape(f, e);
    var stem := name[..|name| - |e| - 1];
    assert name == stem + "." + e;
    assert IsEntryName(stem) by {
      forall k | 0 <= k < |stem| ensures stem[k] != '/' { assert stem[k] == name[k]; }
    }
    SuffixOfExtension(dir, stem, e);
    LowerEqualsIff("." + e, "." + e);
    GlobTableDispatchesBack(f, e);
  }

  /** Every discovered path carries a suffix that the single-file loader
      dispatches to one of the allowed formats. */
  lemma DiscoveredSuffixAllowed(fs: Fs, cwd: Path, dirs: seq<Path>, allowed: seq<Format>, p: Path)
    requires EntryNamesValid(fs)
    requires p in Discover(fs, cwd, dirs, allowed)
    ensures FormatOfSuffix(Lower(Suffix(p))).Some?
    ensures FormatOfSuffix(Lower(Suffix(p))).value in allowed
  {
    DiscoverMember(fs, cwd, dirs, allowed, p);
    var d :| d in dirs && p in DirMatches(fs, ResolveDir(cwd, d), allowed);
    var dir := ResolveDir(cwd, d);
    DirMatchesMember(fs, dir, allowed, p);
    var f, e, i :| f in allowed && e in GlobExtensions(f)
                  && 0 <= i < |fs[dir].children| && GlobMatches(fs[dir].children[i], e)
                  && p == Join(dir, fs[dir].children[i]);
    GlobbedSuffix(dir, fs[dir].children[i], e, f);
  }

  /** With the default allow-list no `.ini` or `.cfg` file is ever picked up. */
  lemma DefaultSkipsIni(fs: Fs, cwd: Path, dirs: seq<Path>, p: Path)
    requires EntryNamesValid(fs)
    requires p in Discover(fs, cwd, dirs, DEFAULT_ALLOWED_FORMATS)
    ensures FormatOfSuffix(Lower(Suffix(p))) != Some(Ini)
  {
    DiscoveredSuffixAllowed(fs, cwd, dirs, DEFAULT_ALLOWED_FORMATS, p);
  }

  /** A glob keeps each matching entry, joined onto the directory. */
  lemma {:induction false} GlobInIsConcatMap(dir: Path, names: seq<string>, ext: string)
    ensures GlobIn(dir, names, ext)
         == ConcatMap(names, n => if GlobMatches(n, ext) then [Join(dir, n)] else [])
  {
    if names != [] {
      GlobInIsConcatMap(dir, names[1..], ext);
    }
  }

  /** Reordering a listing reorders the glob result and nothing more. */
  lemma GlobInPermutation(dir: Path, a: seq<string>, b: seq<string>, ext: string)
    requires multiset(a) == multiset(b)
    ensures multiset(GlobIn(dir, a, ext)) == multiset(GlobIn(dir, b, ext))
  {
    GlobInIsConcatMap(dir, a, ext);
    GlobInIsConcatMap(dir, b, ext);
    ConcatMapPermutation(a, b, n => if GlobMatches(n, ext) then [Join(dir, n)] else []);
  }

  /** Two file systems that differ only in the order directories list their
      entries. */
  predicate SameUpToListingOrder(fs1: Fs, fs2: Fs)
  {
    && fs1.Keys == fs2.Keys
    && forall p :: p in fs1 ==>
         && (fs1[p].File? ==> fs2[p] == fs1[p])
         && (fs1[p].Directory? ==> fs2[p].Directory? && multiset(fs1[p].children) == multiset(fs2[p].children))
  }

  lemma FormatGlobsIgnoresListingOrder(fs1: Fs, fs2: Fs, dir: Path, f: Format)
    requires IsDir(fs1, dir) && IsDir(fs2, dir)
    requires multiset(fs1[dir].children) == multiset(fs2[dir].children)
    ensures multiset(FormatGlobs(fs1, dir, f)) == multiset(FormatGlobs(fs2, dir, f))
  {
    var exts := GlobExtensions(f);
    GlobInPermutation(dir, fs1[dir].children, fs2[dir].children, exts[0]);
    if |exts| > 1 {
      GlobInPermutation(dir, fs1[dir].children, fs2[dir].children, exts[1]);
    }
  }

  lemma DirMatchesIgnoresListingOrder(fs1: Fs, fs2: Fs, dir: Path, allowed: seq<Format>)
    requires SameUpToListingOrder(fs1, fs2)
    ensures multiset(DirMatches(fs1, dir, allowed)) == multiset(DirMatches(fs2, dir, allowed))
  {
    if IsDir(fs1, dir) {
      assert IsDir(fs2, dir);
      FormatGlobsIgnoresListingOrder(fs1, fs2, dir, Yaml);
      FormatGlobsIgnoresListingOrder(fs1, fs2, dir, Json);
      FormatGlobsIgnoresListingOrder(fs1, fs2, dir, Toml);
      FormatGlobsIgnoresListingOrder(fs1, fs2, dir, Ini);
      var y1, j1, t1, n1 := AllowedGlobs(fs1, dir, Yaml, allowed), AllowedGlobs(fs1, dir, Json, allowed),
                            AllowedGlobs(fs1, dir, Toml, allowed), AllowedGlobs(fs1, dir, Ini, allowed);
      var y2, j2, t2, n2 := AllowedGlobs(fs2, dir, Yaml, allowed), AllowedGlobs(fs2, dir, Json, allowed),
                            AllowedGlobs(fs2, dir, Toml, allowed), AllowedGlobs(fs2, dir, Ini, allowed);
      assert multiset(y1 + j1 + t1 + n1) == multiset(y1) + multiset(j1) + multiset(t1) + multiset(n1);
      assert multiset(y2 + j2 + t2 + n2) == multiset(y2) + multiset(j2) + multiset(t2) + multiset(n2);
    } else {
      assert !IsDir(fs2, dir);
    }
  }

  /** Discovery finds the same paths, with the same multiplicities, whatever
      order the directories list their entries in. */
  lemma {:induction false} DiscoverIgnoresListingOrder(fs1: Fs, fs2: Fs, cwd: Path, dirs: seq<Path>, allowed: seq<Format>)
    requires SameUpToListingOrder(fs1, fs2)
    ensures multiset(Discover(fs1, cwd, dirs, allowed)) == multiset(Discover(fs2, cwd, dirs, allowed))
  {
    if dirs != [] {
      DiscoverIgnoresListingOrder(fs1, fs2, cwd, dirs[1..], allowed);
      DirMatchesIgnoresListingOrder(fs1, fs2, ResolveDir(cwd, dirs[0]), allowed);
      assert Discover(fs1, cwd, dirs, allowed)
          == DirMatches(fs1, ResolveDir(cwd, dirs[0]), allowed) + Discover(fs1, cwd, dirs[1..], allowed);
      assert Discover(fs2, cwd, dirs, allowed)
          == DirMatches(fs2, ResolveDir(cwd, dirs[0]), allowed) + Discover(fs2, cwd, dirs[1..], allowed);
    }
  }
}

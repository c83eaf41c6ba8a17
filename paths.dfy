/** POSIX path strings as `os.path` and `pathlib` treat them in the loader:
    absoluteness, joining, the final component and its suffix. Paths are taken
    in the normal form `pathlib.Path` gives them (no empty, `.` or trailing
    components). */
module Paths {

  type Path = string

  /** `os.path.isabs` on POSIX. */
  predicate IsAbsolute(p: Path)
  {
    |p| > 0 && p[0] == '/'
  }

  /** `os.path.join(a, b)` for two components. */
  function Join(a: Path, b: Path): Path
  {
    if IsAbsolute(b) then b
    else if a == "" || a[|a| - 1] == '/' then a + b
    else a + "/" + b
  }

  /** A single directory entry name: non-empty and free of '/'. */
  predicate IsEntryName(n: string)
  {
    n != "" && forall k :: 0 <= k < |n| ==> n[k] != '/'
  }

  /** The last index of `c` in `s`, or -1: Python's `s.rfind(c)`. */
  function RFind(s: string, c: char): (i: int)
    ensures -1 <= i < |s|
  {
    if s == [] then -1
    else if s[|s| - 1] == c then |s| - 1
    else RFind(s[..|s| - 1], c)
  }

  /** `rfind` finds the last occurrence: `c` sits at the index found and
      nowhere after it, so -1 means `c` does not occur. */
  lemma {:induction false} RFindIsLast(s: string, c: char)
    ensures 0 <= RFind(s, c) ==> s[RFind(s, c)] == c
    ensures forall k :: RFind(s, c) < k < |s| ==> s[k] != c
  {
    if s != [] && s[|s| - 1] != c {
      RFindIsLast(s[..|s| - 1], c);
    }
  }

  /** `Path(p).name`: the text after the last '/'. */
  function BaseName(p: Path): string
  {
    p[RFind(p, '/') + 1..]
  }

  /** The suffix rule applied to a final component. */
  function NameSuffix(name: string): string
  {
    var i := RFind(name, '.');
    if 0 < i < |name| - 1 then name[i..] else ""
  }

  /** `Path(p).suffix`: from the last '.' of the final component, provided that
      dot is neither its first nor its last character; otherwise empty. */
  function Suffix(p: Path): string
  {
    NameSuffix(BaseName(p))
  }

  /** The last `c` of `a + [c] + b`, when `b` holds no `c`, is the one after `a`. */
  lemma RFindLast(a: string, c: char, b: string)
    requires forall k :: 0 <= k < |b| ==> b[k] != c
    ensures RFind(a + [c] + b, c) == |a|
  {
    var s := a + [c] + b;
    RFindIsLast(s, c);
    assert s[|a|] == c;
  }

  /** Text after a separator (or at the start) with no '/' in it is the final component. */
  lemma BaseNameAfterSeparator(prefix: Path, n: string)
    requires prefix == [] || prefix[|prefix| - 1] == '/'
    requires forall k :: 0 <= k < |n| ==> n[k] != '/'
    ensures BaseName(prefix + n) == n
  {
    var s := prefix + n;
    var i := RFind(s, '/');
    RFindIsLast(s, '/');
    if prefix != [] {
      assert s[|prefix| - 1] == '/';
    }
    assert i == |prefix| - 1;
    assert s[|prefix|..] == n;
  }

  /** Joining an entry name onto a directory yields a path whose final
      component is that name. */
  lemma BaseNameOfJoin(dir: Path, n: string)
    requires IsEntryName(n)
    ensures BaseName(Join(dir, n)) == n
  {
    if dir == "" || dir[|dir| - 1] == '/' {
      BaseNameAfterSeparator(dir, n);
    } else {
      BaseNameAfterSeparator(dir + "/", n);
      assert dir + "/" + n == (dir + "/") + n;
    }
  }

  lemma ExtensionNameIsEntry(stem: string, ext: string)
    requires IsEntryName(stem) && IsEntryName(ext)
    ensures IsEntryName(stem + "." + ext)
  {
    var name := stem + "." + ext;
    forall k | 0 <= k < |name| ensures name[k] != '/' {
      if k < |stem| { assert name[k] == stem[k]; }
      else if k > |stem| { assert name[k] == ext[k - |stem| - 1]; }
    }
  }

  /** The suffix of the name `stem + "." + ext`, for a non-empty stem and a
      non-empty, dot-free `ext`, is `"." + ext`. */
  lemma NameSuffixOfExtension(stem: string, ext: string)
    requires stem != [] && ext != []
    requires forall k :: 0 <= k < |ext| ==> ext[k] != '.'
    ensures NameSuffix(stem + "." + ext) == "." + ext
  {
    var name := stem + "." + ext;
    RFindLast(stem, '.', ext);
    assert name == stem + ['.'] + ext;
    assert name[|stem|..] == "." + ext;
  }

  /** The suffix of `dir/stem.ext` is `.ext`. */
  lemma SuffixOfExtension(dir: Path, stem: string, ext: string)
    requires IsEntryName(stem) && IsEntryName(ext)
    requires forall k :: 0 <= k < |ext| ==> ext[k] != '.'
    ensures Suffix(Join(dir, stem + "." + ext)) == "." + ext
  {
    ExtensionNameIsEntry(stem, ext);
    BaseNameOfJoin(dir, stem + "." + ext);
    NameSuffixOfExtension(stem, ext);
  }
}

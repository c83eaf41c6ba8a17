/** An abstract file system: every existing path is either a regular file
    with its text or a directory with its listing, in the order the operating
    system lists it. A listed name with no node behind it is a dangling link:
    glob reports it, but it is not a file. */
module FileSystem {
  import opened Paths

  datatype Node = File(content: string) | Directory(children: seq<string>)

  type Fs = map<Path, Node>

  /** `os.path.isfile`. */
  predicate IsFile(fs: Fs, p: Path)
  {
    p in fs && fs[p].File?
  }

  /** `os.path.isdir`. */
  predicate IsDir(fs: Fs, p: Path)
  {
    p in fs && fs[p].Directory?
  }
}

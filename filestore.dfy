/** The file store the service keeps all of its state in: a set of directories and a map from
    file paths to their bytes, with the failure modes of the POSIX calls the code makes. */
module Files {
  import opened Common
  import opened Paths

  /** The Python exceptions the modelled code can raise. */
  datatype PyError =
    | FileNotFoundError
    | FileExistsError
    | NotADirectoryError
    | IsADirectoryError
    | AttributeError
    | KeyError
    | ValueError

  /** What a Python call does: return a value or raise. */
  datatype Outcome<+T> = Returned(value: T) | Raised(error: PyError)

  /** A snapshot of the file store. */
  datatype Store = Store(dirs: set<Path>, files: map<Path, Bytes>)

  /** The store is a tree as the disk is one: no path is both a directory and a file, every file
      and every directory other than a root sits in a directory, and no file is named `.` or `..`,
      which always resolve to directories. */
  predicate Consistent(s: Store)
  {
    && s.dirs !! s.files.Keys
    && (forall q {:trigger Dirname(q)} :: q in s.files ==> Dirname(q) in s.dirs)
    && (forall q {:trigger Basename(q)} :: q in s.files ==> !IsDotName(Basename(q)))
    && (forall q {:trigger Dirname(q)} :: q in s.dirs && Dirname(q) != q ==> Dirname(q) in s.dirs)
  }

  /** `os.path.isdir(p)`. */
  predicate IsDir(s: Store, p: Path)
  {
    p in s.dirs
  }

  /** `os.path.isfile(p)`. */
  predicate IsFile(s: Store, p: Path)
  {
    p in s.files
  }

  /** The error looking up `d` as a directory raises, if any: its ancestors are resolved from the
      top, and the first one that is a file or is missing decides the error. */
  function LookupError(s: Store, d: Path): (e: Option<PyError>)
    decreases |d|
    ensures e == None || e == Some(NotADirectoryError) || e == Some(FileNotFoundError)
    ensures e == None ==> d in s.dirs
  {
    var up := if |Dirname(d)| < |d| then LookupError(s, Dirname(d)) else None;
    if up.Some? then up
    else if d in s.files then Some(NotADirectoryError)
    else if d !in s.dirs then Some(FileNotFoundError)
    else None
  }

  /** In a consistent store every directory resolves: all of its ancestors are directories too. */
  lemma {:induction false} LookupDir(s: Store, d: Path)
    requires Consistent(s)
    ensures LookupError(s, d) == None <==> d in s.dirs
    decreases |d|
  {
    if d in s.dirs && |Dirname(d)| < |d| {
      LookupDir(s, Dirname(d));
    }
  }

  /** Looking up a file as a directory raises NotADirectoryError. */
  lemma LookupFile(s: Store, d: Path)
    requires Consistent(s) && d in s.files
    ensures LookupError(s, d) == Some(NotADirectoryError)
  {
    assert Dirname(d) in s.dirs && Dirname(d) != d;
    LookupDir(s, Dirname(d));
  }

  /** A path below one whose lookup fails fails with the same error. */
  lemma LookupBelow(s: Store, d: Path, p: Path)
    requires Dirname(p) == d && |d| < |p| && LookupError(s, d).Some?
    ensures LookupError(s, p) == LookupError(s, d)
  {
  }

  /** The error `os.mkdir(p)` raises, if any: the parent is looked up first; then an existing
      path, or a name that resolves to an existing directory, is refused. */
  function MkdirError(s: Store, p: Path): Option<PyError>
  {
    var up := LookupError(s, Dirname(p));
    if up.Some? then up
    else if p in s.dirs || p in s.files || IsDotName(Basename(p)) then Some(FileExistsError)
    else None
  }

  /** The error `open(p, 'wb')` raises, if any: the parent is looked up first; then a directory,
      or a name that resolves to one, cannot be opened as a file. */
  function OpenError(s: Store, p: Path): Option<PyError>
  {
    var up := LookupError(s, Dirname(p));
    if up.Some? then up
    else if p in s.dirs || IsDotName(Basename(p)) then Some(IsADirectoryError)
    else None
  }

  /** A missing path is looked up as its parent is, and is itself missing when the parent resolves. */
  lemma LookupMissing(s: Store, d: Path)
    requires d !in s.dirs && d !in s.files && |Dirname(d)| < |d|
    ensures LookupError(s, d) ==
              if LookupError(s, Dirname(d)) == Some(NotADirectoryError) then Some(NotADirectoryError)
              else Some(FileNotFoundError)
  {
  }

  /** `os.mkdir` of a path that does not exist yet fails exactly as looking up its parent does. */
  lemma MkdirAfterLookup(s: Store, p: Path)
    requires p !in s.dirs && p !in s.files && !IsDotName(Basename(p))
    ensures MkdirError(s, p) == LookupError(s, Dirname(p))
  {
  }

  /** `os.mkdir` of a new entry named by a real component succeeds once its parent is a directory. */
  lemma MkdirInDir(s: Store, p: Path)
    requires Consistent(s) && Dirname(p) in s.dirs
    requires p !in s.dirs && p !in s.files && !IsDotName(Basename(p))
    ensures MkdirError(s, p) == None
  {
    LookupDir(s, Dirname(p));
  }

  /** `open(p, 'wb')` of a path named by a real component that is not a directory succeeds once
      its parent is a directory. */
  lemma OpenInDir(s: Store, p: Path)
    requires Consistent(s) && Dirname(p) in s.dirs
    requires p !in s.dirs && !IsDotName(Basename(p))
    ensures OpenError(s, p) == None
  {
    LookupDir(s, Dirname(p));
  }

  /** In a consistent store an existing file can always be reopened for writing. */
  lemma OpenExistingFile(s: Store, p: Path)
    requires Consistent(s) && p in s.files
    ensures OpenError(s, p) == None
  {
    OpenInDir(s, p);
  }

  /** `os.listdir(d)` as a set: the last components of the entries directly inside `d`. */
  function ListDir(s: Store, d: Path): set<string>
  {
    set q | q in s.dirs + s.files.Keys && IsEntryOf(q, d) :: q[|d| + 1..]
  }

  /** The listing holds exactly the names whose join with `d` exists. */
  lemma ListDirExact(s: Store, d: Path, n: string)
    requires IsDirPrefix(d)
    ensures n in ListDir(s, d) <==> IsComponent(n) && Join(d, n) in s.dirs + s.files.Keys
  {
    var q := Join(d, n);
    EntryOfJoin(d, n, q);
    if n in ListDir(s, d) {
      var q' :| q' in s.dirs + s.files.Keys && IsEntryOf(q', d) && q'[|d| + 1..] == n;
      EntryOfJoin(d, n, q');
    }
  }

  lemma ListDirAll(s: Store, d: Path)
    requires IsDirPrefix(d)
    ensures forall n :: n in ListDir(s, d) <==> IsComponent(n) && Join(d, n) in s.dirs + s.files.Keys
  {
    forall n
      ensures n in ListDir(s, d) <==> IsComponent(n) && Join(d, n) in s.dirs + s.files.Keys
    {
      ListDirExact(s, d, n);
    }
  }

  /** The file store itself, changed in place by the OS calls the code makes. */
  class FileStore {
    var dirs: set<Path>
    var files: map<Path, Bytes>

    function State(): Store
      reads this
    {
      Store(dirs, files)
    }

    ghost predicate Valid()
      reads this
    {
      Consistent(State())
    }

    /** `os.mkdir(p)`. */
    method Mkdir(p: Path) returns (e: Option<PyError>)
      requires Valid()
      modifies this
      ensures Valid()
      ensures e == MkdirError(old(State()), p)
      ensures e.None? ==> dirs == old(dirs) + {p} && files == old(files)
      ensures e.Some? ==> dirs == old(dirs) && files == old(files)
    {
      e := MkdirError(State(), p);
      if e.None? {
        dirs := dirs + {p};
      }
    }

    /** `open(p, 'wb')`: creates the file or truncates it. */
    method OpenWrite(p: Path) returns (e: Option<PyError>)
      requires Valid()
      modifies this
      ensures Valid()
      ensures e == OpenError(old(State()), p)
      ensures e.None? ==> dirs == old(dirs) && files == old(files)[p := []]
      ensures e.Some? ==> dirs == old(dirs) && files == old(files)
    {
      e := OpenError(State(), p);
      if e.None? {
        files := files[p := []];
      }
    }

    /** `destination.write(chunk)` on a file opened for writing. */
    method Write(p: Path, chunk: Bytes)
      requires Valid() && p in files
      modifies this
      ensures Valid()
      ensures dirs == old(dirs) && files == old(files)[p := old(files)[p] + chunk]
    {
      files := files[p := files[p] + chunk];
    }

    /** `with open(p, 'wb') as f: f.write(content)`: the file holds exactly `content` afterwards. */
    method WriteFile(p: Path, content: Bytes) returns (e: Option<PyError>)
      requires Valid()
      modifies this
      ensures Valid() && dirs == old(dirs)
      ensures e == OpenError(old(State()), p)
      ensures e.None? ==> files == old(files)[p := content]
      ensures e.Some? ==> files == old(files)
    {
      e := OpenWrite(p);
      if e.None? {
        UpdateTwice(old(files), p, [], content);
        Write(p, content);
        assert [] + content == content;
      }
    }

    /** `os.remove(p)` on an existing file. */
    method Remove(p: Path)
      requires Valid() && p in files
      modifies this
      ensures Valid()
      ensures dirs == old(dirs) && files == old(files) - {p}
    {
      files := files - {p};
    }
  }
}

/** POSIX path strings as Python's `posixpath` builds and splits them. */
module Paths {

  type Path = string

  predicate NoSep(s: string)
  {
    forall i :: 0 <= i < |s| ==> s[i] != '/'
  }

  /** A path that can stand as the left part of a join without leaving a doubled or trailing separator. */
  predicate IsDirPrefix(d: Path)
  {
    d != [] && d[|d| - 1] != '/'
  }

  /** A single path component: one entry of a directory. */
  predicate IsComponent(n: string)
  {
    n != [] && NoSep(n)
  }

  predicate IsSuffix(suffix: string, s: string)
  {
    |suffix| <= |s| && s[|s| - |suffix|..] == suffix
  }

  /** `os.path.join(a, b)`: an absolute `b` replaces `a`; otherwise one separator is put between them
      unless `a` is empty or already ends in one. */
  function Join(a: Path, b: Path): Path
  {
    if |b| > 0 && b[0] == '/' then b
    else if a == [] || a[|a| - 1] == '/' then a + b
    else a + "/" + b
  }

  lemma JoinPlain(a: Path, b: Path)
    requires IsDirPrefix(a) && (b == [] || b[0] != '/')
    ensures Join(a, b) == a + "/" + b
  {
  }

  /** Joining a single component never leaves a trailing separator. */
  lemma JoinComponent(a: Path, b: string)
    requires IsComponent(b)
    ensures IsDirPrefix(Join(a, b))
  {
    var r := Join(a, b);
    assert r[|r| - 1] == b[|b| - 1];
  }

  /** Index of the last separator of `p`, or -1 (`p.rfind('/')`). */
  function LastSep(p: Path): (i: int)
    ensures -1 <= i < |p|
    ensures i >= 0 ==> p[i] == '/'
    ensures forall j :: i < j < |p| ==> p[j] != '/'
  {
    if p == [] then -1
    else if p[|p| - 1] == '/' then |p| - 1
    else LastSep(p[..|p| - 1])
  }

  /** `os.path.basename(p)`: everything after the last separator. */
  function Basename(p: Path): string
  {
    p[LastSep(p) + 1..]
  }

  /** The names the file system resolves to the directory itself or its parent instead of
      looking them up as entries. */
  predicate IsDotName(name: string)
  {
    name == "." || name == ".."
  }

  predicate AllSeps(s: string)
  {
    forall i :: 0 <= i < |s| ==> s[i] == '/'
  }

  /** `s.rstrip('/')`. */
  function TrimSeps(s: string): (r: string)
    ensures r <= s
    ensures r == [] || r[|r| - 1] != '/'
    ensures AllSeps(s[|r|..])
  {
    if s != [] && s[|s| - 1] == '/' then TrimSeps(s[..|s| - 1]) else s
  }

  /** `os.path.dirname(p)`: everything before the last separator, with trailing separators
      removed unless the head consists of separators only. */
  function Dirname(p: Path): (r: Path)
    ensures r <= p
  {
    var head := p[..LastSep(p) + 1];
    if head != [] && !AllSeps(head) then TrimSeps(head) else head
  }

  /** The parent of a joined path is the directory it was joined to. */
  lemma DirnameOfJoin(a: Path, b: string)
    requires IsDirPrefix(a) && NoSep(b)
    ensures Dirname(Join(a, b)) == a
  {
    var p := a + "/" + b;
    assert Join(a, b) == p;
    assert p[|a|] == '/';
    var i := LastSep(p);
    assert i == |a|;
    var head := p[..i + 1];
    assert head == a + "/";
    assert head[|a| - 1] != '/';
    assert TrimSeps(head) == TrimSeps(a);
  }

  /** The last component of a joined path is the component joined. */
  lemma BasenameOfJoin(a: Path, b: string)
    requires IsDirPrefix(a) && NoSep(b)
    ensures Basename(Join(a, b)) == b
  {
    var p := a + "/" + b;
    assert Join(a, b) == p;
    assert p[|a|] == '/';
    assert LastSep(p) == |a|;
    assert p[|a| + 1..] == b;
  }

  /** A component joined to a directory is its direct child. */
  lemma JoinChild(d: Path, n: string)
    requires IsDirPrefix(d) && IsComponent(n)
    ensures Join(d, n) == d + "/" + n
    ensures Dirname(Join(d, n)) == d
  {
    JoinPlain(d, n);
    DirnameOfJoin(d, n);
  }

  /** `q` names an entry directly inside directory `d`. */
  predicate IsEntryOf(q: Path, d: Path)
  {
    |d| + 1 < |q| && q[..|d|] == d && q[|d|] == '/' && NoSep(q[|d| + 1..])
  }

  /** The entries `os.listdir(d)` reports are exactly the components joined to `d`. */
  lemma {:induction false} EntryOfJoin(d: Path, n: string, q: Path)
    requires IsDirPrefix(d)
    ensures (IsEntryOf(q, d) && q[|d| + 1..] == n) <==> (IsComponent(n) && q == Join(d, n))
  {
    if IsComponent(n) && q == Join(d, n) {
      JoinPlain(d, n);
      assert q[..|d|] == d;
      assert q[|d| + 1..] == n;
    }
    if IsEntryOf(q, d) && q[|d| + 1..] == n {
      assert q == q[..|d|] + [q[|d|]] + q[|d| + 1..];
      JoinPlain(d, n);
    }
  }

  /** `p` is `d` itself or lies somewhere below it. */
  predicate Within(p: Path, d: Path)
  {
    p == d || (|d| < |p| && p[..|d|] == d && p[|d|] == '/')
  }

  /** Two components joined to the same directory head disjoint subtrees unless they are equal;
      this helper shows that a path below both cannot have the second name longer. */
  lemma {:induction false} SiblingLength(d: Path, n1: string, n2: string, p: Path)
    requires IsDirPrefix(d) && IsComponent(n1) && IsComponent(n2)
    requires Within(p, Join(d, n1)) && Within(p, Join(d, n2))
    ensures |n2| <= |n1|
  {
    JoinPlain(d, n1);
    JoinPlain(d, n2);
  }

  /** No path lies below two different components of one directory. */
  lemma SiblingsDisjoint(d: Path, n1: string, n2: string, p: Path)
    requires IsDirPrefix(d) && IsComponent(n1) && IsComponent(n2)
    requires Within(p, Join(d, n1)) && Within(p, Join(d, n2))
    ensures n1 == n2
  {
    SiblingLength(d, n1, n2, p);
    SiblingLength(d, n2, n1, p);
    JoinPlain(d, n1);
    JoinPlain(d, n2);
    var a, b := d + "/" + n1, d + "/" + n2;
    assert p[..|a|] == a && p[..|b|] == b;
    assert n1 == a[|d| + 1..] == b[|d| + 1..] == n2;
  }
}

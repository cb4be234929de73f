/** POSIX path handling as Python's `os.path.join` (two arguments) and
    `os.path.basename` perform it. */
module Paths {

  const Sep: char := '/'

  /** `os.path.join(a, b)`: an absolute `b` replaces `a`; otherwise `b` is
      appended, with a separator unless `a` is empty or already ends in one. */
  function Join(a: string, b: string): string {
    if |b| > 0 && b[0] == Sep then b
    else if a == [] || a[|a| - 1] == Sep then a + b
    else a + [Sep] + b
  }

  /** `os.path.basename(p)`: everything after the last separator. */
  function Basename(p: string): string
    decreases |p|
  {
    if p == [] then []
    else if p[|p| - 1] == Sep then []
    else Basename(p[..|p| - 1]) + [p[|p| - 1]]
  }

  /** The basename is the longest suffix without a separator: a suffix of
      the path, free of separators, and either the whole path or preceded by
      a separator. */
  lemma {:induction false} BasenameIsLastComponent(p: string)
    ensures var r := Basename(p);
      && |r| <= |p| && r == p[|p| - |r|..]
      && Sep !in r
      && (|r| < |p| ==> p[|p| - |r| - 1] == Sep)
    decreases |p|
  {
    if p != [] && p[|p| - 1] != Sep {
      var init := p[..|p| - 1];
      BasenameIsLastComponent(init);
      assert p == init + [p[|p| - 1]];
    }
  }

  /** A plain directory-entry name: what `os.listdir` yields. */
  predicate IsEntryName(name: string) {
    |name| > 0 && Sep !in name
  }

  /** The directory part that `Join(parent, name)` puts before a relative
      `name`. */
  function JoinPrefix(parent: string): (r: string)
    ensures r == [] || r[|r| - 1] == Sep
  {
    if parent == [] || parent[|parent| - 1] == Sep then parent else parent + [Sep]
  }

  lemma JoinRelative(parent: string, name: string)
    requires |name| > 0 && name[0] != Sep
    ensures Join(parent, name) == JoinPrefix(parent) + name
  {
  }

  lemma {:induction false} BasenameAfterSeparator(dir: string, name: string)
    requires dir == [] || dir[|dir| - 1] == Sep
    requires Sep !in name
    ensures Basename(dir + name) == name
    decreases |name|
  {
    if name == [] {
      assert dir + name == dir;
    } else {
      var last := name[|name| - 1];
      var init := name[..|name| - 1];
      assert name == init + [last];
      assert (dir + name)[..|dir + name| - 1] == dir + init;
      BasenameAfterSeparator(dir, init);
    }
  }

  /** The name of a folder reached by joining an entry name to its parent is
      that entry name: `basename(join(parent, name)) == name`. */
  lemma BasenameOfJoin(parent: string, name: string)
    requires IsEntryName(name)
    ensures Basename(Join(parent, name)) == name
  {
    assert name[0] in name;
    JoinRelative(parent, name);
    BasenameAfterSeparator(JoinPrefix(parent), name);
  }

  /** Joining distinct entry names to one parent gives distinct paths. */
  lemma JoinInjective(parent: string, a: string, b: string)
    requires IsEntryName(a) && IsEntryName(b)
    requires Join(parent, a) == Join(parent, b)
    ensures a == b
  {
    BasenameOfJoin(parent, a);
    BasenameOfJoin(parent, b);
  }
}

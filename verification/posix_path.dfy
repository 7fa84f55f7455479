/** The two pieces of Python's path handling that turn `Path(dir) / name` into a
    string: `posixpath.join`, which discards the directory when the name is
    absolute, and the string form of a `PurePosixPath`, which drops empty and
    `.` components and keeps a root of one slash (two only when the path starts
    with exactly two). */
module PosixPath {
  import opened PyStr

  /** `posixpath.join(dir, name)` */
  function JoinPath(dir: string, name: string): (joined: string)
    ensures |name| > 0 && name[0] == '/' ==> joined == name
  {
    if |name| > 0 && name[0] == '/' then name
    else if dir == [] || dir[|dir| - 1] == '/' then dir + name
    else dir + "/" + name
  }

  /** A relative name is appended to the directory, with exactly one slash
      between them when the directory does not already end in one. */
  lemma JoinPathRelative(dir: string, name: string)
    requires !(|name| > 0 && name[0] == '/')
    ensures var joined := JoinPath(dir, name);
      |joined| >= |dir| + |name| && joined[..|dir|] == dir && joined[|joined| - |name|..] == name
    ensures |dir| > 0 && dir[|dir| - 1] != '/' ==> JoinPath(dir, name)[|dir|] == '/'
    ensures |JoinPath(dir, name)| == |dir| + |name| + (if |dir| > 0 && dir[|dir| - 1] != '/' then 1 else 0)
  {
  }

  /** `posixpath.splitroot(p)` without the drive: the root and the rest. */
  function SplitRoot(p: string): (parts: (string, string))
    ensures parts.0 + parts.1 == p && parts.0 in {"", "/", "//"}
  {
    if |p| == 0 || p[0] != '/' then ("", p)
    else if |p| == 1 || p[1] != '/' || (|p| > 2 && p[2] == '/') then ("/", p[1..])
    else ("//", p[2..])
  }

  /** The root is empty exactly for a relative path, and is `//` exactly when
      the path starts with two slashes and not a third. */
  lemma SplitRootCases(p: string)
    ensures SplitRoot(p).0 == "" <==> |p| == 0 || p[0] != '/'
    ensures SplitRoot(p).0 == "//" <==> |p| >= 2 && p[0] == '/' && p[1] == '/' && (|p| == 2 || p[2] != '/')
  {
  }

  /** The components pathlib keeps: empty and `.` components are dropped. */
  function Keep(parts: seq<string>): (kept: seq<string>)
    ensures |kept| <= |parts|
    ensures forall i :: 0 <= i < |kept| ==> kept[i] != "" && kept[i] != "." && kept[i] in parts
  {
    if parts == [] then []
    else if parts[0] == "" || parts[0] == "." then Keep(parts[1..])
    else [parts[0]] + Keep(parts[1..])
  }

  /** Keeping distributes over concatenation: each component is kept or dropped
      on its own, and the kept ones stay in order. */
  lemma {:induction false} KeepAppend(a: seq<string>, b: seq<string>)
    ensures Keep(a + b) == Keep(a) + Keep(b)
    decreases |a|
  {
    if a == [] {
      assert a + b == b;
    } else {
      var ab := a + b;
      assert ab[0] == a[0] && ab[1..] == a[1..] + b;
      KeepAppend(a[1..], b);
      if a[0] != "" && a[0] != "." {
        assert Keep(ab) == [a[0]] + Keep(a[1..] + b);
        assert [a[0]] + (Keep(a[1..]) + Keep(b)) == [a[0]] + Keep(a[1..]) + Keep(b);
      }
    }
  }

  /** Every component that is neither empty nor `.` is kept, so a list of such
      components is kept whole. */
  lemma {:induction false} KeepProper(parts: seq<string>)
    requires forall i :: 0 <= i < |parts| ==> parts[i] != "" && parts[i] != "."
    ensures Keep(parts) == parts
    decreases |parts|
  {
    if parts != [] {
      KeepProper(parts[1..]);
    }
  }

  /** A path component: not empty, not `.`, no slash. */
  predicate IsComponent(c: string)
  {
    c != "" && c != "." && '/' !in c
  }

  /** `str(PurePosixPath(p))` */
  function Str(p: string): (s: string)
    ensures |s| > 0
  {
    var (root, rel) := SplitRoot(p);
    var tail := Keep(Split(rel, '/'));
    if tail == [] then (if root == "" then "." else root)
    else root + Join(tail, '/')
  }

  /** `str(Path(dir) / name)` */
  function Under(dir: string, name: string): (s: string)
    ensures |name| > 0 && name[0] == '/' ==> s == Str(name)
  {
    Str(JoinPath(dir, name))
  }

  /** Joining onto an absolute directory always gives an absolute path. */
  lemma UnderAbsoluteDir(dir: string, name: string)
    requires |dir| > 0 && dir[0] == '/'
    ensures |Under(dir, name)| > 0 && Under(dir, name)[0] == '/'
  {
    var p := JoinPath(dir, name);
    if !(|name| > 0 && name[0] == '/') {
      JoinPathRelative(dir, name);
      assert p[0] == dir[0];
    }
    assert SplitRoot(p).0 != "";
  }

  /** An absolute path of two proper components is its own string form. */
  lemma TwoComponents(d: string, name: string)
    requires IsComponent(d) && IsComponent(name)
    ensures Str("/" + d + "/" + name) == "/" + d + "/" + name
  {
    var p := "/" + d + "/" + name;
    assert p[1] == d[0] != '/';
    assert SplitRoot(p) == ("/", d + "/" + name) by {
      assert p[1..] == d + "/" + name;
    }
    SplitAtFirst(d, name, '/');
    SplitWithoutSep(name, '/');
    assert Split(d + "/" + name, '/') == [d, name];
    assert Keep([d, name]) == [d, name] by {
      assert [d, name][1..] == [name];
      assert Keep([name]) == [name];
    }
    assert Join([d, name], '/') == d + "/" + name by {
      assert [d, name][1..] == [name];
    }
  }

  /** A name that is a single proper component lands directly inside `dir`. */
  lemma UnderPlainName(d: string, name: string)
    requires IsComponent(d) && IsComponent(name)
    ensures Under("/" + d, name) == "/" + d + "/" + name
  {
    TwoComponents(d, name);
  }
}

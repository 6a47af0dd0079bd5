/** Path strings as the reconciler and the file views build them, and the
    part of the file system they observe: which path strings exist. */
module Paths {

  /** `p.replace("\\", "/")`: the one separator convention of stored paths. */
  function Normalize(p: string): string {
    if p == [] then [] else [if p[0] == '\\' then '/' else p[0]] + Normalize(p[1..])
  }

  /** Normalising replaces each backslash by a slash, keeps every other
      character in place, and leaves no backslash behind. */
  lemma {:induction false} NormalizeReplaces(p: string)
    ensures |Normalize(p)| == |p|
    ensures forall i :: 0 <= i < |p| ==> Normalize(p)[i] == (if p[i] == '\\' then '/' else p[i])
    ensures '\\' !in Normalize(p)
  {
    if p != [] {
      NormalizeReplaces(p[1..]);
      var r := Normalize(p);
      assert r == [if p[0] == '\\' then '/' else p[0]] + Normalize(p[1..]);
      forall i | 0 <= i < |p| ensures r[i] == (if p[i] == '\\' then '/' else p[i]) {
        if i > 0 {
          assert r[i] == Normalize(p[1..])[i - 1];
        }
      }
    }
  }

  predicate IsSeparator(c: char) {
    c == '/' || c == '\\'
  }

  /** Two spellings of one directory that differ only in which separator
      they use normalise to the same stored path. */
  lemma {:induction false} NormalizeIgnoresSeparatorStyle(p: string, q: string)
    requires |p| == |q|
    requires forall i :: 0 <= i < |p| ==> p[i] == q[i] || (IsSeparator(p[i]) && IsSeparator(q[i]))
    ensures Normalize(p) == Normalize(q)
  {
    if p != [] {
      NormalizeIgnoresSeparatorStyle(p[1..], q[1..]);
    }
  }

  /** Index of the last occurrence of `c` in `s`, or -1 (`str.rfind`). */
  function LastIndex(s: string, c: char): (i: int)
    ensures -1 <= i < |s|
    ensures i >= 0 ==> s[i] == c
    ensures forall j :: i < j < |s| ==> s[j] != c
  {
    if s == [] then -1
    else if s[|s| - 1] == c then |s| - 1
    else LastIndex(s[..|s| - 1], c)
  }

  /** Where `PurePath(name)` cuts a file name into stem and suffix: at its
      last dot, unless that dot is the first or the last character. */
  function SuffixStart(name: string): (i: int)
    ensures 0 < i <= |name| || (i == |name| && name == [])
  {
    var d := LastIndex(name, '.');
    if 0 < d < |name| - 1 then d else |name|
  }

  /** `PurePath(name).suffix` (file names as `os.walk` lists them). */
  function Suffix(name: string): string {
    name[SuffixStart(name)..]
  }

  /** `PurePath(name).stem`. */
  function Stem(name: string): string {
    name[..SuffixStart(name)]
  }

  /** The stem and suffix the insert pass stores put the file name back
      together; the suffix is empty or one dot followed by dot-free text. */
  lemma StemSuffixSplit(name: string)
    ensures Stem(name) + Suffix(name) == name
    ensures Suffix(name) == "" || (Suffix(name)[0] == '.' && |Suffix(name)| >= 2)
    ensures forall j :: 1 <= j < |Suffix(name)| ==> Suffix(name)[j] != '.'
    ensures |Stem(name)| >= 1 || name == []
  {
    var d := LastIndex(name, '.');
    if 0 < d < |name| - 1 {
      assert Suffix(name) == name[d..];
      forall j | 1 <= j < |Suffix(name)| ensures Suffix(name)[j] != '.' {
        assert Suffix(name)[j] == name[d + j];
      }
    }
  }

  /** `os.path.splitext(p)[1]` on POSIX: from the last dot after the last
      slash, provided some character other than a dot precedes it in the
      final component. */
  function SplitExt(p: string): (ext: string)
    ensures |ext| <= |p| && (ext == [] || ext == p[|p| - |ext|..])
    ensures ext == [] || (ext[0] == '.' && '/' !in ext)
    ensures forall j :: 1 <= j < |ext| ==> ext[j] != '.'
    ensures ext != [] <==> exists k, i :: 0 <= k < i < |p| && p[k] != '.' && p[i] == '.' && '/' !in p[k..]
  {
    var sep := LastIndex(p, '/');
    var dot := LastIndex(p, '.');
    if dot > sep && exists k :: sep + 1 <= k < dot && p[k] != '.' then p[dot..] else ""
  }

  /** `os.path.join(a, b)` on POSIX, for two components. */
  function Join(a: string, b: string): string {
    if b != [] && b[0] == '/' then b
    else if a == [] || a[|a| - 1] == '/' then a + b
    else a + "/" + b
  }

  /** The pieces of `p` between slashes (`p.split("/")`). */
  function SplitSlash(p: string): (parts: seq<string>)
    ensures |parts| >= 1
    ensures forall k :: 0 <= k < |parts| ==> '/' !in parts[k]
  {
    if p == [] then [""]
    else if p[0] == '/' then [""] + SplitSlash(p[1..])
    else
      var rest := SplitSlash(p[1..]);
      [[p[0]] + rest[0]] + rest[1..]
  }

  /** The pieces pathlib keeps: empty pieces and "." are dropped. */
  function Components(parts: seq<string>): (r: seq<string>)
    ensures forall k :: 0 <= k < |r| ==> r[k] != "" && r[k] != "." && r[k] in parts
  {
    if parts == [] then []
    else if parts[0] == "" || parts[0] == "." then Components(parts[1..])
    else [parts[0]] + Components(parts[1..])
  }

  function JoinSlash(parts: seq<string>): string {
    if parts == [] then ""
    else if |parts| == 1 then parts[0]
    else parts[0] + "/" + JoinSlash(parts[1..])
  }

  /** The root a POSIX pure path keeps: "//" when the path starts with exactly
      two slashes, "/" when it starts with one or with three or more. */
  function Anchor(p: string): string {
    if |p| >= 2 && p[0] == '/' && p[1] == '/' && (|p| == 2 || p[2] != '/') then "//"
    else if |p| >= 1 && p[0] == '/' then "/"
    else ""
  }

  /** `str(PurePosixPath(p))`: repeated slashes, "." pieces and a trailing
      slash are gone; an empty result reads ".". */
  function PurePathString(p: string): string {
    var s := Anchor(p) + JoinSlash(Components(SplitSlash(p)));
    if s == "" then "." else s
  }

  lemma {:induction false} JoinSlashLast(parts: seq<string>)
    requires parts != []
    requires forall k :: 0 <= k < |parts| ==> parts[k] != ""
    ensures JoinSlash(parts) != ""
    ensures JoinSlash(parts)[|JoinSlash(parts)| - 1] == parts[|parts| - 1][|parts[|parts| - 1]| - 1]
  {
    if |parts| > 1 {
      JoinSlashLast(parts[1..]);
    }
  }

  /** pathlib never leaves a trailing separator, except on a bare root. */
  lemma PurePathStringNoTrailingSlash(p: string)
    ensures var s := PurePathString(p); s != "" && (s[|s| - 1] == '/' ==> s == "/" || s == "//")
  {
    var parts := Components(SplitSlash(p));
    var body := JoinSlash(parts);
    var s := Anchor(p) + body;
    assert PurePathString(p) == if s == "" then "." else s;
    if parts != [] {
      JoinSlashLast(parts);
      var last := parts[|parts| - 1];
      assert last in SplitSlash(p);
      assert '/' !in last;
      assert last[|last| - 1] in last;
      assert s[|s| - 1] == body[|body| - 1];
    } else {
      assert s == Anchor(p);
    }
  }

  /** The directory the insert pass stores for a file found under `root`:
      `str(Path(os.path.join(root, file)).parent)` with backslashes replaced.
      A file name is a single component, so the parent is pathlib's form of
      `root` itself. */
  function StoredDirectory(root: string): string {
    Normalize(PurePathString(root))
  }

  /** A stored directory is never empty and holds no backslash. */
  lemma StoredDirectoryForm(root: string)
    ensures StoredDirectory(root) != [] && '\\' !in StoredDirectory(root)
  {
    NormalizeReplaces(PurePathString(root));
    PurePathStringNoTrailingSlash(root);
  }

  /** The file system as the reconciler and the views observe it: the set
      of path strings `os.path.exists` answers true for. */
  class Disk {
    var paths: set<string>

    constructor (paths: set<string>)
      ensures this.paths == paths
    {
      this.paths := paths;
    }

    /** `os.rename(source, target)`. */
    method Rename(source: string, target: string)
      requires source in paths
      modifies this
      ensures paths == old(paths) - {source} + {target}
    {
      paths := paths - {source} + {target};
    }

    /** `os.remove(path)`. */
    method Remove(path: string)
      requires path in paths
      modifies this
      ensures paths == old(paths) - {path}
    {
      paths := paths - {path};
    }

    /** Writing a file at `path` (`open(path, "wb+")`). */
    method Write(path: string)
      modifies this
      ensures paths == old(paths) + {path}
    {
      paths := paths + {path};
    }
  }
}

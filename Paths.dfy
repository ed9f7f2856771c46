/** File-name extensions as the two scanners compute them: Node's POSIX
    `path.extname` (scanner.js) and the `suffix` of a Python `pathlib.Path`
    (scanner.py), and the joining of a directory and an entry name. */
module Paths {
  import opened Common

  function TrimTrailingSlashes(p: string): (r: string)
    ensures r <= p
    ensures r == [] || r[|r| - 1] != '/'
    ensures forall j :: |r| <= j < |p| ==> p[j] == '/'
  {
    if |p| > 0 && p[|p| - 1] == '/' then TrimTrailingSlashes(p[..|p| - 1]) else p
  }

  /** The position of the last `c` in `s`, if any (`rfind`). */
  function LastIndexOf(s: string, c: char): (r: Option<nat>)
    ensures r.Some? ==> r.value < |s| && s[r.value] == c
    ensures r.Some? ==> forall j :: r.value < j < |s| ==> s[j] != c
    ensures r.None? ==> forall j :: 0 <= j < |s| ==> s[j] != c
  {
    if s == [] then None
    else if s[|s| - 1] == c then Some(|s| - 1)
    else LastIndexOf(s[..|s| - 1], c)
  }

  /** The final component of a path: what follows its last `/` once trailing
      separators are dropped. */
  function BaseName(p: string): (b: string)
    ensures '/' !in b
  {
    var t := TrimTrailingSlashes(p);
    match LastIndexOf(t, '/')
    case None => t
    case Some(k) => t[k + 1..]
  }

  /** Node's `path.extname`: the final component from its last dot, or the empty
      string when the component has no dot, when that dot is its first character,
      or when the component is `..`. */
  function ExtName(p: string): string
  {
    ExtNameOfComponent(BaseName(p))
  }

  function ExtNameOfComponent(b: string): string
  {
    match LastIndexOf(b, '.')
    case None => ""
    case Some(d) => if d == 0 || b == ".." then "" else b[d..]
  }

  /** Python's `PurePath.suffix`: the final component from its last dot, provided
      that dot is neither its first nor its last character. */
  function Suffix(p: string): string
  {
    SuffixOfComponent(BaseName(p))
  }

  function SuffixOfComponent(b: string): string
  {
    match LastIndexOf(b, '.')
    case None => ""
    case Some(i) => if 0 < i < |b| - 1 then b[i..] else ""
  }

  /** `path.join(dir, name)` for an entry name. Node normalises the joined
      path: the current directory `.` and the empty path contribute nothing, and on a normalised
      directory path (see `IsNormalisedDirectory`) nothing else changes. Other
      spellings of the directory are joined without that normalisation. */
  function Join(dir: string, name: string): string
  {
    if dir == "." || dir == "" then name else dir + "/" + name
  }

  /** Python's `os.path.join(dir, name)` for a relative `name`: a separator is
      inserted unless `dir` is empty or already ends with one. */
  function PyJoin(dir: string, name: string): (r: string)
    ensures dir != [] && dir[|dir| - 1] != '/' && dir != "." ==> r == Join(dir, name)
    ensures dir == "." ==> r == "./" + Join(dir, name)
    ensures dir == "" ==> r == Join(dir, name)
  {
    if dir == [] || dir[|dir| - 1] == '/' then dir + name else dir + "/" + name
  }

  /** A name a directory listing can hold: non-empty, without a separator, and
      neither `.` nor `..` (listings never report those two). */
  predicate IsEntryName(name: string) {
    name != [] && '/' !in name && name != "." && name != ".."
  }

  /** Position `i` starts a component of `p`. */
  predicate StartsComponent(p: string, i: nat)
    requires i < |p|
  {
    i == 0 || p[i - 1] == '/'
  }

  /** A `.` or `..` component of `p` starts at `i`. */
  predicate DotComponentAt(p: string, i: nat)
    requires i < |p|
  {
    StartsComponent(p, i) && p[i] == '.'
    && (i + 1 == |p| || p[i + 1] == '/' || (p[i + 1] == '.' && (i + 2 == |p| || p[i + 2] == '/')))
  }

  /** A directory path that Node's path normalisation leaves as it is: not
      empty, no trailing separator, no empty component (`//`) and no `.` or
      `..` component. */
  predicate IsNormalisedDirectory(p: string) {
    && p != [] && p[|p| - 1] != '/'
    && (forall i :: 0 < i < |p| ==> !(p[i - 1] == '/' && p[i] == '/'))
    && (forall i :: 0 <= i < |p| ==> !DotComponentAt(p, i))
  }

  /** A non-empty extension is a dot followed by characters of the final
      component, none of them a dot, and the component does not start with it. */
  lemma ExtNameShape(p: string)
    ensures var e := ExtName(p);
      e == "" || (|e| >= 1 && e[0] == '.' && '/' !in e && '.' !in e[1..]
                  && |BaseName(p)| > |e| && BaseName(p)[|BaseName(p)| - |e|..] == e)
  {
    var b := BaseName(p);
    match LastIndexOf(b, '.')
    case None =>
    case Some(d) =>
      if d != 0 && b != ".." {
        var e := b[d..];
        assert forall j :: 1 <= j < |e| ==> e[j] == b[d + j];
        assert '/' !in e by {
          forall j | 0 <= j < |e| ensures e[j] != '/' {
            assert e[j] == b[d + j];
          }
        }
      }
  }

  /** The two libraries agree on every extension of at least two characters;
      where Node returns a bare `.` (a name ending in a dot), Python returns the
      empty string. So a name's extension is a recognised one under one library
      exactly when it is under the other. */
  lemma SuffixAgreesWithExtName(p: string)
    ensures Suffix(p) == if |ExtName(p)| >= 2 then ExtName(p) else ""
  {
  }

  /** A name placed right after a separator (or at the start) is the final
      component of the path, so both extensions of the path are the name's own. */
  lemma NameAfterSeparator(prefix: string, name: string)
    requires IsEntryName(name)
    requires prefix == [] || prefix[|prefix| - 1] == '/'
    ensures BaseName(prefix + name) == name
    ensures ExtName(prefix + name) == ExtName(name)
    ensures Suffix(prefix + name) == Suffix(name)
  {
    var j := prefix + name;
    assert j[|j| - 1] == name[|name| - 1];
    assert TrimTrailingSlashes(j) == j;
    if prefix == [] {
      assert j == name;
    } else {
      assert LastIndexOf(j, '/') == Some(|prefix| - 1) by {
        LastSlashBeforeName(prefix, name);
      }
      assert j[|prefix|..] == name;
    }
  }

  lemma {:induction false} LastSlashBeforeName(prefix: string, name: string)
    requires '/' !in name
    requires prefix != [] && prefix[|prefix| - 1] == '/'
    ensures LastIndexOf(prefix + name, '/') == Some(|prefix| - 1)
    decreases |name|
  {
    var j := prefix + name;
    if name == [] {
      assert j == prefix;
    } else {
      var name' := name[..|name| - 1];
      assert j[..|j| - 1] == prefix + name';
      assert name[|name| - 1] in name;
      LastSlashBeforeName(prefix, name');
    }
  }

  /** Both joins keep the entry name as the final component. */
  lemma ExtensionOfJoin(dir: string, name: string)
    requires IsEntryName(name)
    ensures BaseName(Join(dir, name)) == name && BaseName(PyJoin(dir, name)) == name
    ensures ExtName(Join(dir, name)) == ExtName(name)
    ensures Suffix(Join(dir, name)) == Suffix(name) && Suffix(PyJoin(dir, name)) == Suffix(name)
  {
    if dir == "." || dir == "" {
      assert Join(dir, name) == [] + name;
      NameAfterSeparator([], name);
    } else {
      assert Join(dir, name) == (dir + "/") + name;
    }
    NameAfterSeparator(dir + "/", name);
    if dir == [] || dir[|dir| - 1] == '/' {
      NameAfterSeparator(dir, name);
    }
  }

  /** Joining an entry name to a normalised directory adds one separator, as
      both libraries do, and gives a normalised directory path again. */
  lemma JoinKeepsNormalised(dir: string, name: string)
    requires IsNormalisedDirectory(dir) && IsEntryName(name)
    ensures Join(dir, name) == PyJoin(dir, name) == dir + "/" + name
    ensures IsNormalisedDirectory(Join(dir, name))
  {
    assert !DotComponentAt(dir, 0);
    var j := dir + "/" + name;
    assert Join(dir, name) == j;
    assert j[..|dir|] == dir && j[|dir| + 1..] == name;
    assert forall k :: 0 <= k < |dir| ==> j[k] == dir[k];
    assert j[|dir|] == '/';
    assert forall k :: |dir| < k < |j| ==> j[k] == name[k - |dir| - 1] && j[k] != '/';
    forall i | 0 < i < |j| ensures !(j[i - 1] == '/' && j[i] == '/') {
      if i < |dir| {
        assert j[i - 1] == dir[i - 1] && j[i] == dir[i];
      } else if i == |dir| {
        assert j[i - 1] == dir[|dir| - 1];
      }
    }
    forall i | 0 <= i < |j| ensures !DotComponentAt(j, i) {
      if i < |dir| {
        DotComponentOfPrefix(dir, j, i);
      } else if i == |dir| + 1 {
        NotDotName(name, j, i);
      }
    }
  }

  /** A `.` or `..` component inside the directory part of `dir + "/" + ...`
      is one of `dir` itself. */
  lemma DotComponentOfPrefix(dir: string, j: string, i: nat)
    requires dir != [] && i < |dir| < |j| && j[..|dir|] == dir && j[|dir|] == '/'
    ensures DotComponentAt(j, i) ==> DotComponentAt(dir, i)
  {
    assert j[i] == dir[i];
    assert i > 0 ==> j[i - 1] == dir[i - 1];
    assert i + 1 < |dir| ==> j[i + 1] == dir[i + 1];
    assert i + 2 < |dir| ==> j[i + 2] == dir[i + 2];
  }

  /** The component an entry name forms is neither `.` nor `..`. */
  lemma NotDotName(name: string, j: string, i: nat)
    requires IsEntryName(name) && i <= |j| && j[i..] == name
    requires i < |j|
    ensures !DotComponentAt(j, i)
  {
    assert j[i] == name[0];
    if |name| == 1 {
      assert name == [j[i]];
    } else {
      assert j[i + 1] == name[1] && name[1] in name;
      if |name| == 2 {
        assert name == [j[i], j[i + 1]];
      } else {
        assert j[i + 2] == name[2] && name[2] in name;
      }
    }
  }
}

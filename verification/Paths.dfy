/** Paths and module specifiers as character sequences, with '/' as the separator. */
module Paths {

  predicate StartsWith(s: string, prefix: string) {
    prefix <= s
  }

  predicate EndsWith(s: string, suffix: string) {
    |suffix| <= |s| && s[|s| - |suffix|..] == suffix
  }

  /** The number of leading characters of s up to and including the last c; 0 if there is none. */
  function AfterLast(s: string, c: char): (n: nat)
    ensures n <= |s|
    ensures n == 0 ==> c !in s
    ensures n > 0 ==> s[n - 1] == c && c !in s[n..]
  {
    if s == [] then 0
    else if s[|s| - 1] == c then |s|
    else
      assert s == s[..|s| - 1] + [s[|s| - 1]];
      AfterLast(s[..|s| - 1], c)
  }

  function FileName(path: string): string {
    path[AfterLast(path, '/')..]
  }

  /** The path with its file name removed; the separator stays. */
  function Directory(path: string): string {
    path[..AfterLast(path, '/')]
  }

  /** The extension of the file name with its dot; a leading dot does not start an extension. */
  function Extension(path: string): string {
    var name := FileName(path);
    var n := AfterLast(name, '.');
    if name == ".." || n <= 1 then "" else name[n - 1..]
  }

  /** Joining as std::filesystem does: an absolute right-hand side replaces the left one. */
  function Join(left: string, right: string): string {
    if StartsWith(right, "/") then right
    else if left == "" || EndsWith(left, "/") then left + right
    else left + "/" + right
  }

  // ---------------------------------------------------------------- what the parts of a path are

  predicate IsDirectory(dir: string) {
    dir == "" || dir[|dir| - 1] == '/'
  }

  lemma InSuffix(s: string, n: nat, i: int)
    ensures n <= i < |s| ==> s[i] in s[n..]
  {
    if n <= i < |s| {
      assert s[n..][i - n] == s[i];
    }
  }

  lemma LastIs(s: string, t: string, c: char)
    requires c !in t
    ensures AfterLast(s + [c] + t, c) == |s| + 1
    ensures AfterLast(t, c) == 0
  {
    var all := s + [c] + t;
    InSuffix(all, AfterLast(all, c), |s|);
    InSuffix(all, |s| + 1, AfterLast(all, c) - 1);
    assert all[|s|] == c && all[|s| + 1..] == t;
  }

  /** A path is taken apart behind its last separator. */
  lemma PathParts(dir: string, name: string)
    requires IsDirectory(dir) && '/' !in name
    ensures Directory(dir + name) == dir && FileName(dir + name) == name
  {
    if dir == "" {
      LastIs("", name, '/');
      assert dir + name == name;
    } else {
      LastIs(dir[..|dir| - 1], name, '/');
      assert dir == dir[..|dir| - 1] + ['/'];
    }
  }

  lemma DottedName(stem: string, ext: string)
    requires '.' !in ext
    ensures var name := stem + "." + ext;
      AfterLast(name, '.') == |stem| + 1 && name[|stem|..] == "." + ext
  {
    LastIs(stem, ext, '.');
    assert stem + ['.'] + ext == stem + "." + ext;
  }

  /** The extension starts at the last dot of the file name, which must not be its first character. */
  lemma ExtensionParts(dir: string, stem: string, ext: string)
    requires IsDirectory(dir) && '/' !in stem + ext && '.' !in ext && stem != ""
    ensures stem + "." + ext != ".." ==> Extension(dir + (stem + "." + ext)) == "." + ext
  {
    hide AfterLast, FileName;
    assert '/' !in stem + "." + ext;
    PathParts(dir, stem + "." + ext);
    DottedName(stem, ext);
  }

  lemma NoExtension(dir: string, name: string)
    requires IsDirectory(dir) && '/' !in name && '.' !in name
    ensures Extension(dir + name) == "" && Extension(dir + ("." + name)) == ""
  {
    hide AfterLast, FileName;
    PathParts(dir, name);
    PathParts(dir, "." + name);
    LastIs("", name, '.');
    assert "" + ['.'] + name == "." + name;
  }

  /** A name put into a directory is the file of that name in it; an absolute path stays what it is. */
  lemma JoinParts(dir: string, name: string)
    requires '/' !in name
    ensures FileName(Join(dir, name)) == name
    ensures IsDirectory(dir) ==> Directory(Join(dir, name)) == dir
    ensures !IsDirectory(dir) ==> Directory(Join(dir, name)) == dir + "/"
    ensures forall path :: Join(dir, "/" + path) == "/" + path
  {
    if IsDirectory(dir) {
      PathParts(dir, name);
      assert Join(dir, name) == dir + name;
    } else {
      PathParts(dir + "/", name);
      assert dir + "/" + name == (dir + "/") + name;
    }
  }
}

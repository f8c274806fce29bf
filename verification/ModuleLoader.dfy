/** Where a module name is looked for (src/module_loader.cpp). */
module ModuleLoader {
  import opened Options
  import Paths

  type Path = string

  /** `normal` is the normal form of a path; plugin entries are listed in directory order with
      whether they are directories. */
  datatype FileSystem = FileSystem(
    exists_: Path -> bool,
    normal: Path -> Path,
    libPath: Path,
    plugins: seq<(Path, bool)>)

  // ---------------------------------------------------------------- the list of candidates

  /** Directly in the directory and, unless it is one itself, in its node_modules. */
  function CandidatesNamed(dir: Path, file: string): seq<Path> {
    [Paths.Join(dir, file)] +
    if Paths.FileName(dir) != "node_modules" then [Paths.Join(Paths.Join(dir, "node_modules"), file)] else []
  }

  predicate IsJs(name: string) {
    Paths.EndsWith(name, ".js") || Paths.EndsWith(name, ".mjs")
    || Paths.EndsWith(name, ".cjs") || Paths.EndsWith(name, ".json")
  }

  const SUFFIXES: seq<string> := [".js", ".mjs", ".cjs", "/package.json", "/index.js"]

  /** The file names to try for a module name, in order. */
  function FileNames(name: string): seq<string> {
    (if IsJs(name) then [name] else []) + seq(|SUFFIXES|, i requires 0 <= i < |SUFFIXES| => name + SUFFIXES[i])
  }

  function CandidatesNamedAll(dir: Path, files: seq<string>): seq<Path> {
    if files == [] then [] else CandidatesNamed(dir, files[0]) + CandidatesNamedAll(dir, files[1..])
  }

  function CandidatesIn(dir: Path, name: string): seq<Path> {
    CandidatesNamedAll(dir, FileNames(name))
  }

  function CandidatesInAll(dirs: seq<Path>, name: string): seq<Path> {
    if dirs == [] then [] else CandidatesIn(dirs[0], name) + CandidatesInAll(dirs[1..], name)
  }

  function SkipSlashes(s: string): (rest: string)
    ensures |rest| <= |s|
    ensures s != "" && s[0] == '/' ==> |rest| < |s|
  {
    if s != "" && s[0] == '/' then SkipSlashes(s[1..]) else s
  }

  function IndexOfSlash(s: string): (i: nat)
    ensures i <= |s|
    ensures i < |s| ==> s[i] == '/'
    ensures '/' !in s[..i]
  {
    if s == "" || s[0] == '/' then 0 else 1 + IndexOfSlash(s[1..])
  }

  function Names(s: string): seq<string>
    decreases |s|
  {
    if s == "" then []
    else
      var i := IndexOfSlash(s);
      if i == |s| then [s]
      else
        var rest := SkipSlashes(s[i..]);
        [s[..i]] + if rest == "" then [""] else Names(rest)
  }

  /** The elements that iterating over a path gives: its root, if any, and its names; a separator at
      the end gives an empty name. */
  function Elements(path: Path): seq<string> {
    if Paths.StartsWith(path, "/") then ["/"] + Names(SkipSlashes(path)) else Names(path)
  }

  /** The ancestors to search, from the first below `base` down: each element extends the path, and
      node_modules directories are passed over. */
  function AncestorsBelow(base: Path, elements: seq<string>): seq<Path>
    decreases |elements|
  {
    if elements == [] then []
    else
      var dir := Paths.Join(base, elements[0]);
      (if elements[0] != "node_modules" then [dir] else []) + AncestorsBelow(dir, elements[1..])
  }

  function Ancestors(dir: Path): seq<Path> {
    var elements := Elements(dir);
    if elements == [] then [] else AncestorsBelow(Paths.Join("", elements[0]), elements[1..])
  }

  predicate SearchesAncestors(dir: Path, name: string) {
    dir != "" && '/' in name && !Paths.EndsWith(name, ".js") && !Paths.EndsWith(name, ".mjs")
  }

  function PluginDirs(plugins: seq<(Path, bool)>): seq<Path> {
    if plugins == [] then []
    else (if plugins[0].1 then [plugins[0].0] else []) + PluginDirs(plugins[1..])
  }

  function Candidates(fs: FileSystem, dir: Path, name: string): seq<Path> {
    CandidatesIn(dir, name)
    + (if SearchesAncestors(dir, name) then CandidatesInAll(Ancestors(dir), name) else [])
    + CandidatesIn(fs.libPath, name)
    + CandidatesInAll(PluginDirs(fs.plugins), name)
  }

  /** The normal form of the first candidate that exists. */
  function FirstMatch(fs: FileSystem, candidates: seq<Path>): Option<Path> {
    if candidates == [] then None
    else if fs.exists_(candidates[0]) then Some(fs.normal(candidates[0]))
    else FirstMatch(fs, candidates[1..])
  }

  /** There is a first match exactly when some candidate exists, and it is the normal form of the
      first that does. */
  lemma {:induction false} FirstMatchIff(fs: FileSystem, candidates: seq<Path>)
    ensures FirstMatch(fs, candidates).Some? <==> exists i :: 0 <= i < |candidates| && fs.exists_(candidates[i])
    ensures FirstMatch(fs, candidates).Some? ==>
      exists i :: 0 <= i < |candidates| && fs.exists_(candidates[i])
        && (forall j :: 0 <= j < i ==> !fs.exists_(candidates[j]))
        && FirstMatch(fs, candidates) == Some(fs.normal(candidates[i]))
  {
    if candidates != [] && !fs.exists_(candidates[0]) {
      FirstMatchIff(fs, candidates[1..]);
      if FirstMatch(fs, candidates).Some? {
        var i :| 0 <= i < |candidates[1..]| && fs.exists_(candidates[1..][i])
          && (forall j :: 0 <= j < i ==> !fs.exists_(candidates[1..][j]))
          && FirstMatch(fs, candidates[1..]) == Some(fs.normal(candidates[1..][i]));
        assert candidates[i + 1] == candidates[1..][i];
        assert forall j :: 0 < j < i + 1 ==> candidates[j] == candidates[1..][j - 1];
      }
      if i :| 0 <= i < |candidates| && fs.exists_(candidates[i]) {
        assert candidates[1..][i - 1] == candidates[i];
      }
    }
  }

  lemma {:induction false} FirstMatchConcat(fs: FileSystem, a: seq<Path>, b: seq<Path>)
    ensures FirstMatch(fs, a + b) == if FirstMatch(fs, a).Some? then FirstMatch(fs, a) else FirstMatch(fs, b)
  {
    if a == [] {
      assert a + b == b;
    } else {
      FirstMatchConcat(fs, a[1..], b);
      assert (a + b)[1..] == a[1..] + b;
    }
  }

  // ---------------------------------------------------------------- the search

  method CheckExists(fs: FileSystem, filePath: Path) returns (path: Option<Path>)
    ensures path == FirstMatch(fs, [filePath])
  {
    var normalizedPath := fs.normal(filePath);
    path := if fs.exists_(filePath) then Some(normalizedPath) else None;
  }

  method SearchModuleWithExtInDir(fs: FileSystem, dir: Path, requiredModule: string) returns (path: Option<Path>)
    ensures path == FirstMatch(fs, CandidatesNamed(dir, requiredModule))
  {
    path := CheckExists(fs, Paths.Join(dir, requiredModule));
    if path.None? && Paths.FileName(dir) != "node_modules" {
      path := CheckExists(fs, Paths.Join(Paths.Join(dir, "node_modules"), requiredModule));
    }
  }

  method SearchModuleInDir(fs: FileSystem, dir: Path, requiredModule: string) returns (path: Option<Path>)
    ensures path == FirstMatch(fs, CandidatesIn(dir, requiredModule))
  {
    ghost var files := FileNames(requiredModule);
    path := None;
    if IsJs(requiredModule) {
      path := SearchModuleWithExtInDir(fs, dir, requiredModule);
      NextNamed(fs, dir, files);
      if path.Some? {
        return;
      }
    }
    ghost var skipped := if IsJs(requiredModule) then 1 else 0;
    assert files[0..] == files;
    var i := 0;
    while i < |SUFFIXES|
      invariant i <= |SUFFIXES| && path == None
      invariant FirstMatch(fs, CandidatesNamedAll(dir, files)) ==
                FirstMatch(fs, CandidatesNamedAll(dir, files[skipped + i..]))
    {
      ghost var rest := files[skipped + i..];
      assert rest[0] == requiredModule + SUFFIXES[i] && rest[1..] == files[skipped + i + 1..];
      NextNamed(fs, dir, rest);
      path := SearchModuleWithExtInDir(fs, dir, requiredModule + SUFFIXES[i]);
      if path.Some? {
        return;
      }
      i := i + 1;
    }
    assert files[skipped + i..] == [];
  }

  lemma NextNamed(fs: FileSystem, dir: Path, files: seq<string>)
    requires files != []
    ensures FirstMatch(fs, CandidatesNamedAll(dir, files)) ==
      var first := FirstMatch(fs, CandidatesNamed(dir, files[0]));
      if first.Some? then first else FirstMatch(fs, CandidatesNamedAll(dir, files[1..]))
  {
    FirstMatchConcat(fs, CandidatesNamed(dir, files[0]), CandidatesNamedAll(dir, files[1..]));
  }

  lemma NextDir(fs: FileSystem, dirs: seq<Path>, name: string)
    requires dirs != []
    ensures FirstMatch(fs, CandidatesInAll(dirs, name)) ==
      var first := FirstMatch(fs, CandidatesIn(dirs[0], name));
      if first.Some? then first else FirstMatch(fs, CandidatesInAll(dirs[1..], name))
  {
    FirstMatchConcat(fs, CandidatesIn(dirs[0], name), CandidatesInAll(dirs[1..], name));
  }

  /** The search gives the first match over the flat list of candidates. */
  method Search(fs: FileSystem, requiredDir: Path, requiredModule: string) returns (path: Option<Path>)
    ensures path == FirstMatch(fs, Candidates(fs, requiredDir, requiredModule))
  {
    FourParts(fs, requiredDir, requiredModule);
    hide FirstMatch, Candidates, CandidatesIn, CandidatesInAll;
    path := SearchModuleInDir(fs, requiredDir, requiredModule);
    if path.Some? {
      return;
    }
    if SearchesAncestors(requiredDir, requiredModule) {
      path := SearchAncestors(fs, requiredDir, requiredModule);
      if path.Some? {
        return;
      }
    }
    path := SearchModuleInDir(fs, fs.libPath, requiredModule);
    if path.Some? {
      return;
    }
    path := SearchPlugins(fs, requiredModule);
  }

  /** The four places in turn. */
  lemma FourParts(fs: FileSystem, dir: Path, name: string)
    ensures FirstMatch(fs, Candidates(fs, dir, name)) ==
      var own := FirstMatch(fs, CandidatesIn(dir, name));
      var above := FirstMatch(fs, CandidatesInAll(Ancestors(dir), name));
      var lib := FirstMatch(fs, CandidatesIn(fs.libPath, name));
      if own.Some? then own
      else if SearchesAncestors(dir, name) && above.Some? then above
      else if lib.Some? then lib
      else FirstMatch(fs, CandidatesInAll(PluginDirs(fs.plugins), name))
  {
    var own := CandidatesIn(dir, name);
    var above := if SearchesAncestors(dir, name) then CandidatesInAll(Ancestors(dir), name) else [];
    var lib := CandidatesIn(fs.libPath, name);
    var plugins := CandidatesInAll(PluginDirs(fs.plugins), name);
    hide CandidatesIn, CandidatesInAll, SearchesAncestors;
    FirstMatchConcat(fs, own + above + lib, plugins);
    FirstMatchConcat(fs, own + above, lib);
    FirstMatchConcat(fs, own, above);
  }

  /** The loop over the plugin directories. */
  method SearchPlugins(fs: FileSystem, requiredModule: string) returns (path: Option<Path>)
    ensures path == FirstMatch(fs, CandidatesInAll(PluginDirs(fs.plugins), requiredModule))
  {
    hide CandidatesIn;
    path := None;
    assert fs.plugins[0..] == fs.plugins;
    var i := 0;
    while i < |fs.plugins|
      invariant i <= |fs.plugins| && path == None
      invariant FirstMatch(fs, CandidatesInAll(PluginDirs(fs.plugins), requiredModule)) ==
                FirstMatch(fs, CandidatesInAll(PluginDirs(fs.plugins[i..]), requiredModule))
    {
      var entry := fs.plugins[i];
      assert fs.plugins[i..][0] == entry && fs.plugins[i..][1..] == fs.plugins[i + 1..];
      if entry.1 {
        assert PluginDirs(fs.plugins[i..])[1..] == PluginDirs(fs.plugins[i + 1..]);
        NextDir(fs, PluginDirs(fs.plugins[i..]), requiredModule);
        path := SearchModuleInDir(fs, entry.0, requiredModule);
        if path.Some? {
          return;
        }
      } else {
        assert PluginDirs(fs.plugins[i..]) == PluginDirs(fs.plugins[i + 1..]);
      }
      i := i + 1;
    }
  }

  /** The loop over the elements of the directory; the first of them is only a base. */
  method SearchAncestors(fs: FileSystem, requiredDir: Path, requiredModule: string) returns (path: Option<Path>)
    ensures path == FirstMatch(fs, CandidatesInAll(Ancestors(requiredDir), requiredModule))
  {
    hide CandidatesIn, Paths.Join, Elements;
    var elements := Elements(requiredDir);
    var currentPath := "";
    var first := true;
    ghost var left := Ancestors(requiredDir);
    path := None;
    var i := 0;
    while i < |elements|
      invariant i <= |elements| && path == None && first == (i == 0)
      invariant FirstMatch(fs, CandidatesInAll(Ancestors(requiredDir), requiredModule)) ==
                FirstMatch(fs, CandidatesInAll(left, requiredModule))
      invariant if first then currentPath == "" && left == Ancestors(requiredDir)
                else left == AncestorsBelow(currentPath, elements[i..])
    {
      var part := elements[i];
      assert elements[i..][0] == part && elements[i..][1..] == elements[i + 1..];
      currentPath := Paths.Join(currentPath, part);
      if first {
        first := false;
      } else if part != "node_modules" {
        NextDir(fs, left, requiredModule);
        path := SearchModuleInDir(fs, currentPath, requiredModule);
        if path.Some? {
          return;
        }
        left := left[1..];
      }
      i := i + 1;
    }
    assert left == [];
  }
}

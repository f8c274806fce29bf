/** The files that a search looks at, in order, as plain strings. */
module SearchOrder {
  import opened Options
  import opened ModuleLoader
  import Paths

  /** A directory with the separator that a name is put behind. */
  function Prefix(dir: string): string {
    if dir == "" || dir[|dir| - 1] == '/' then dir else dir + "/"
  }

  predicate Ends(s: string, suffix: string) {
    |suffix| <= |s| && s[|s| - |suffix|..] == suffix
  }

  predicate IsNodeModules(dir: string) {
    dir == "node_modules" || Ends(dir, "/node_modules")
  }

  lemma JoinIsPrefix(dir: string, name: string)
    requires name == "" || name[0] != '/'
    ensures Paths.Join(dir, name) == Prefix(dir) + name
  {
  }

  lemma NameOf(dir: string, name: string)
    requires '/' !in name
    ensures Paths.FileName(dir) == name <==> dir == name || Ends(dir, "/" + name)
  {
    var n := Paths.AfterLast(dir, '/');
    if Paths.FileName(dir) == name && n > 0 {
      assert dir[n - 1..] == ['/'] + dir[n..];
    }
    if Ends(dir, "/" + name) {
      var above := dir[..|dir| - |name| - 1];
      Paths.LastIs(above, name, '/');
      assert dir == above + ("/" + name) == above + ['/'] + name;
    }
    Paths.LastIs("", name, '/');
  }

  lemma NodeModulesByName(dir: string)
    ensures Paths.FileName(dir) == "node_modules" <==> IsNodeModules(dir)
  {
    hide Paths.FileName, Ends;
    NameOf(dir, "node_modules");
    assert "/" + "node_modules" == "/node_modules";
  }

  /** Each file name is tried in the directory and, unless it is a node_modules itself, in its
      node_modules. */
  lemma TwoPlaces(dir: string, file: string)
    requires file == "" || file[0] != '/'
    ensures CandidatesNamed(dir, file) ==
      if IsNodeModules(dir) then [Prefix(dir) + file]
      else [Prefix(dir) + file, Prefix(dir) + "node_modules/" + file]
  {
    hide Paths.Join, Paths.FileName, IsNodeModules;
    NodeModulesByName(dir);
    JoinIsPrefix(dir, file);
    JoinIsPrefix(dir, "node_modules");
    var below := Prefix(dir) + "node_modules";
    JoinIsPrefix(below, file);
    assert below[|below| - 1] == "node_modules"[11];
    assert "node_modules" + "/" == "node_modules/";
    assert Prefix(below) == Prefix(dir) + "node_modules/";
  }

  lemma EndingsTried(name: string)
    ensures seq(|SUFFIXES|, i requires 0 <= i < |SUFFIXES| => name + SUFFIXES[i]) ==
      [name + ".js", name + ".mjs", name + ".cjs", name + "/package.json", name + "/index.js"]
  {
    assert |SUFFIXES| == 5;
    assert SUFFIXES[0] == ".js" && SUFFIXES[1] == ".mjs" && SUFFIXES[2] == ".cjs";
    assert SUFFIXES[3] == "/package.json" && SUFFIXES[4] == "/index.js";
  }

  /** The names tried for a module: the name as it is if it ends in .js, .mjs, .cjs or .json, and then with
      .js, .mjs, .cjs, as a package and as a directory with an index. */
  lemma NamesInOrder(name: string)
    ensures FileNames(name) ==
      (if Ends(name, ".js") || Ends(name, ".mjs") || Ends(name, ".cjs") || Ends(name, ".json") then [name] else [])
      + [name + ".js", name + ".mjs", name + ".cjs", name + "/package.json", name + "/index.js"]
  {
    hide IsJs, Ends;
    EndingsTried(name);
    JsByName(name);
  }

  lemma JsByName(name: string)
    ensures IsJs(name) <==> Ends(name, ".js") || Ends(name, ".mjs") || Ends(name, ".cjs") || Ends(name, ".json")
  {
  }

  lemma {:induction false} NamesInTurn(dir: string, files: seq<string>, more: seq<string>)
    ensures CandidatesNamedAll(dir, files + more) == CandidatesNamedAll(dir, files) + CandidatesNamedAll(dir, more)
  {
    hide CandidatesNamed;
    if files == [] {
      assert files + more == more;
    } else {
      NamesInTurn(dir, files[1..], more);
      assert (files + more)[1..] == files[1..] + more;
    }
  }

  lemma OneName(dir: string, file: string)
    ensures CandidatesNamedAll(dir, [file]) == CandidatesNamed(dir, file)
  {
    assert [file][1..] == [];
  }

  lemma {:induction false} DirectoriesInTurn(dirs: seq<string>, more: seq<string>, name: string)
    ensures CandidatesInAll(dirs + more, name) == CandidatesInAll(dirs, name) + CandidatesInAll(more, name)
  {
    hide CandidatesIn;
    if dirs == [] {
      assert dirs + more == more;
    } else {
      DirectoriesInTurn(dirs[1..], more, name);
      assert (dirs + more)[1..] == dirs[1..] + more;
    }
  }

  lemma OneDirectory(dir: string, name: string)
    ensures CandidatesInAll([dir], name) == CandidatesIn(dir, name)
  {
    hide CandidatesIn;
    assert [dir][1..] == [];
  }

  /** Everything tried for a name without one of these extensions in an ordinary directory. */
  lemma PlainNameInDirectory(dir: string, name: string)
    requires name != "" && name[0] != '/' && !IsNodeModules(dir)
    requires !Ends(name, ".js") && !Ends(name, ".mjs") && !Ends(name, ".cjs") && !Ends(name, ".json")
    ensures var own, below := Prefix(dir) + name, Prefix(dir) + "node_modules/" + name;
      CandidatesIn(dir, name) ==
        [own + ".js", below + ".js", own + ".mjs", below + ".mjs", own + ".cjs", below + ".cjs",
         own + "/package.json", below + "/package.json", own + "/index.js", below + "/index.js"]
  {
    NamesInOrder(name);
    hide CandidatesNamedAll, CandidatesNamed, FileNames, IsNodeModules, Ends, Prefix;
    var own, below := Prefix(dir) + name, Prefix(dir) + "node_modules/" + name;
    PlaceOf(dir, name, ".js");
    PlaceOf(dir, name, ".mjs");
    PlaceOf(dir, name, ".cjs");
    PlaceOf(dir, name, "/package.json");
    PlaceOf(dir, name, "/index.js");
    var a, b, c, d, e := name + ".js", name + ".mjs", name + ".cjs", name + "/package.json", name + "/index.js";
    assert FileNames(name) == [a] + ([b] + ([c] + ([d] + [e])));
    NamesInTurn(dir, [a], [b] + ([c] + ([d] + [e])));
    NamesInTurn(dir, [b], [c] + ([d] + [e]));
    NamesInTurn(dir, [c], [d] + [e]);
    NamesInTurn(dir, [d], [e]);
    OneName(dir, a);
    OneName(dir, b);
    OneName(dir, c);
    OneName(dir, d);
    OneName(dir, e);
  }

  lemma PlaceOf(dir: string, name: string, suffix: string)
    requires name != "" && name[0] != '/' && !IsNodeModules(dir)
    ensures CandidatesNamed(dir, name + suffix) ==
      [Prefix(dir) + name + suffix, Prefix(dir) + "node_modules/" + name + suffix]
  {
    hide IsNodeModules, Prefix, CandidatesNamed;
    TwoPlaces(dir, name + suffix);
    assert Prefix(dir) + (name + suffix) == Prefix(dir) + name + suffix;
    assert Prefix(dir) + "node_modules/" + (name + suffix) == Prefix(dir) + "node_modules/" + name + suffix;
  }

  /** A name with such an extension is tried as it is first. */
  lemma ExtendedNameFirst(dir: string, name: string)
    requires name != "" && name[0] != '/' && !IsNodeModules(dir)
    requires Ends(name, ".js") || Ends(name, ".mjs") || Ends(name, ".cjs") || Ends(name, ".json")
    ensures [Prefix(dir) + name, Prefix(dir) + "node_modules/" + name] <= CandidatesIn(dir, name)
  {
    NamesInOrder(name);
    TwoPlaces(dir, name);
    var rest := [name + ".js", name + ".mjs", name + ".cjs", name + "/package.json", name + "/index.js"];
    hide CandidatesNamed, FileNames, CandidatesNamedAll;
    NamesInTurn(dir, [name], rest);
    OneName(dir, name);
  }

  // ---------------------------------------------------------------- directories

  /** The ancestors are searched only for a name that goes into a directory and has no extension of its
      own. */
  lemma AncestorsSearchedIff(dir: string, name: string)
    ensures SearchesAncestors(dir, name) <==>
      dir != "" && (exists i :: 0 <= i < |name| && name[i] == '/') && !Ends(name, ".js") && !Ends(name, ".mjs")
  {
  }

  /** The search goes through the directory itself, its ancestors, the library and the plugins. */
  lemma PlacesInOrder(fs: FileSystem, dir: string, name: string)
    ensures Candidates(fs, dir, name) ==
      CandidatesInAll([dir] + (if SearchesAncestors(dir, name) then Ancestors(dir) else []) + [fs.libPath]
                      + PluginDirs(fs.plugins), name)
  {
    var above := if SearchesAncestors(dir, name) then Ancestors(dir) else [];
    hide CandidatesIn, CandidatesInAll, SearchesAncestors, Ancestors;
    DirectoriesInTurn([dir] + above + [fs.libPath], PluginDirs(fs.plugins), name);
    DirectoriesInTurn([dir] + above, [fs.libPath], name);
    DirectoriesInTurn([dir], above, name);
    OneDirectory(dir, name);
    OneDirectory(fs.libPath, name);
    NoDirectories(name);
  }

  lemma NoDirectories(name: string)
    ensures CandidatesInAll([], name) == []
  {
  }

  lemma NextPlugin(plugins: seq<(string, bool)>)
    requires plugins != []
    ensures PluginDirs(plugins) == (if plugins[0].1 then [plugins[0].0] else []) + PluginDirs(plugins[1..])
  {
  }

  /** Of the entries of the plugin directory those that are directories, in order. */
  lemma {:induction false} PluginsInTurn(plugins: seq<(string, bool)>, more: seq<(string, bool)>)
    ensures PluginDirs(plugins + more) == PluginDirs(plugins) + PluginDirs(more)
    decreases |plugins|
  {
    if plugins == [] {
      assert plugins + more == more;
      assert PluginDirs(plugins) == [];
    } else {
      PluginsInTurnStep(plugins, more);
      PluginsInTurn(plugins[1..], more);
    }
  }

  lemma PluginsInTurnStep(plugins: seq<(string, bool)>, more: seq<(string, bool)>)
    requires plugins != []
    ensures PluginDirs(plugins[1..] + more) == PluginDirs(plugins[1..]) + PluginDirs(more) ==>
      PluginDirs(plugins + more) == PluginDirs(plugins) + PluginDirs(more)
  {
    hide PluginDirs;
    NextPlugin(plugins);
    NextPlugin(plugins + more);
    assert (plugins + more)[1..] == plugins[1..] + more;
  }

  lemma OnePlugin(path: string)
    ensures PluginDirs([(path, true)]) == [path] && PluginDirs([(path, false)]) == []
  {
    assert [(path, true)][1..] == [] && [(path, false)][1..] == [];
  }

  predicate IsName(name: string) {
    name != "" && '/' !in name
  }

  /** The names of a path with separators between them. */
  function Slashed(names: seq<string>): string {
    if names == [] then "" else if |names| == 1 then names[0] else names[0] + "/" + Slashed(names[1..])
  }

  lemma {:induction false} FirstSlash(name: string, rest: string)
    requires '/' !in name
    ensures IndexOfSlash(name + "/" + rest) == |name| && IndexOfSlash(name) == |name|
  {
    if name == "" {
      assert name + "/" + rest == "/" + rest;
    } else {
      FirstSlash(name[1..], rest);
      assert (name + "/" + rest)[1..] == name[1..] + "/" + rest;
    }
  }

  lemma NamesOfOne(name: string)
    requires IsName(name)
    ensures Names(name) == [name] && Names(name + "/") == [name, ""]
  {
    hide IndexOfSlash, SkipSlashes;
    FirstSlash(name, "");
    assert name + "/" + "" == name + "/";
    assert (name + "/")[..|name|] == name && (name + "/")[|name|..] == "/";
    SeparatorsInARow("");
    assert "/" + "" == "/";
  }

  lemma SlashedStarts(names: seq<string>)
    requires names != [] && IsName(names[0])
    ensures Slashed(names) != "" && Slashed(names)[0] != '/'
  {
  }

  lemma {:induction false} NamesOfSlashed(names: seq<string>)
    requires names != [] && forall i :: 0 <= i < |names| ==> IsName(names[i])
    ensures Names(Slashed(names)) == names && Names(Slashed(names) + "/") == names + [""]
    ensures Slashed(names) != "" && Slashed(names)[0] != '/'
    decreases |names|
  {
    hide Names;
    assert IsName(names[0]);
    SlashedStarts(names);
    if |names| == 1 {
      NamesOfOne(names[0]);
      assert names == [names[0]];
    } else {
      var rest := Slashed(names[1..]);
      NamesOfSlashed(names[1..]);
      NamesOfTwo(names[0], rest);
      NamesOfTwo(names[0], rest + "/");
      assert names[0] + "/" + (rest + "/") == Slashed(names) + "/";
      assert [names[0]] + (names[1..] + [""]) == names + [""];
      assert names == [names[0]] + names[1..];
    }
  }

  lemma NamesOfTwo(name: string, rest: string)
    requires IsName(name) && rest != "" && rest[0] != '/'
    ensures Names(name + "/" + rest) == [name] + Names(rest)
  {
    hide IndexOfSlash, SkipSlashes;
    var all := name + "/" + rest;
    FirstSlash(name, rest);
    assert all[..|name|] == name && all[|name|..] == "/" + rest;
    SeparatorsInARow(rest);
  }

  /** The paths of the first one, two, ... of the names behind a prefix, without node_modules. */
  function Upwards(prefix: string, names: seq<string>): seq<string>
    decreases |names|
  {
    if names == [] then []
    else (if names[0] != "node_modules" then [prefix + names[0]] else [])
         + Upwards(prefix + names[0] + "/", names[1..])
  }

  lemma OneUp(base: string, name: string)
    requires IsName(name)
    ensures Paths.Join(base, name) == Prefix(base) + name
    ensures Prefix(Prefix(base) + name) == Prefix(base) + name + "/"
  {
    JoinIsPrefix(base, name);
    var dir := Prefix(base) + name;
    assert dir[|dir| - 1] == name[|name| - 1];
  }

  lemma {:induction false} BelowIsUpwards(base: string, names: seq<string>)
    requires forall i :: 0 <= i < |names| ==> IsName(names[i])
    ensures AncestorsBelow(base, names) == Upwards(Prefix(base), names)
    decreases |names|
  {
    hide Paths.Join, Prefix;
    if names != [] {
      assert IsName(names[0]);
      OneUp(base, names[0]);
      BelowIsUpwards(Prefix(base) + names[0], names[1..]);
    }
  }

  lemma NextBelow(base: string, name: string, rest: seq<string>)
    ensures AncestorsBelow(base, [name] + rest) ==
      (if name != "node_modules" then [Paths.Join(base, name)] else []) + AncestorsBelow(Paths.Join(base, name), rest)
  {
    hide Paths.Join;
    assert ([name] + rest)[1..] == rest;
  }

  lemma NextUp(prefix: string, name: string, rest: seq<string>)
    ensures Upwards(prefix, [name] + rest) ==
      (if name != "node_modules" then [prefix + name] else []) + Upwards(prefix + name + "/", rest)
  {
    assert ([name] + rest)[1..] == rest;
  }

  lemma SlashedNext(name: string, rest: seq<string>)
    ensures Slashed([name] + rest) == if rest == [] then name else name + "/" + Slashed(rest)
  {
    assert ([name] + rest)[1..] == rest;
  }

  /** An empty last name is the directory itself once more. */
  lemma {:induction false} BelowThenEmpty(base: string, names: seq<string>)
    requires names != [] && forall i :: 0 <= i < |names| ==> IsName(names[i])
    ensures AncestorsBelow(base, names + [""]) == Upwards(Prefix(base), names) + [Prefix(base) + Slashed(names) + "/"]
    decreases |names|
  {
    hide Paths.Join, Prefix, AncestorsBelow, Upwards, Slashed;
    var name, rest := names[0], names[1..];
    assert names == [name] + rest && names + [""] == [name] + (rest + [""]);
    OneUp(base, name);
    NextBelow(base, name, rest + [""]);
    NextUp(Prefix(base), name, rest);
    SlashedNext(name, rest);
    var dir := Prefix(base) + name;
    if rest == [] {
      EmptyBelow(dir);
      NothingUp(Prefix(dir));
      assert rest + [""] == [""];
    } else {
      BelowThenEmpty(dir, rest);
      assert Prefix(dir) + Slashed(rest) + "/" == Prefix(base) + Slashed(names) + "/";
    }
  }

  lemma NothingUp(prefix: string)
    ensures Upwards(prefix, []) == []
  {
  }

  lemma EmptyBelow(dir: string)
    ensures AncestorsBelow(dir, [""]) == [Prefix(dir)]
  {
    JoinIsPrefix(dir, "");
    assert [""][1..] == [] && "" != "node_modules";
    assert Prefix(dir) + "" == Prefix(dir);
    assert AncestorsBelow(Paths.Join(dir, ""), []) == [];
  }

  lemma ElementsFromRoot(s: string)
    requires s == "" || s[0] != '/'
    ensures Elements("/" + s) == ["/"] + Names(s)
  {
    hide Names, SkipSlashes;
    SeparatorsInARow(s);
  }

  lemma ElementsFromFirst(s: string)
    requires s != "" && s[0] != '/'
    ensures Elements(s) == Names(s)
  {
    hide Names, SkipSlashes;
  }

  lemma ElementsOf(names: seq<string>)
    requires names != [] && forall i :: 0 <= i < |names| ==> IsName(names[i])
    ensures Elements("/" + Slashed(names)) == ["/"] + names
    ensures Elements("/" + (Slashed(names) + "/")) == ["/"] + (names + [""])
    ensures Elements(Slashed(names)) == names
  {
    hide Elements, Names, Slashed;
    NamesOfSlashed(names);
    ElementsFromRoot(Slashed(names));
    ElementsFromRoot(Slashed(names) + "/");
    ElementsFromFirst(Slashed(names));
  }

  lemma AncestorsOfElements(dir: string, first: string, rest: seq<string>)
    requires Elements(dir) == [first] + rest
    ensures Ancestors(dir) == AncestorsBelow(Paths.Join("", first), rest)
  {
    hide Elements, AncestorsBelow, Paths.Join;
    assert ([first] + rest)[1..] == rest;
  }

  lemma FromRoot(names: seq<string>)
    requires names != [] && forall i :: 0 <= i < |names| ==> IsName(names[i])
    ensures Ancestors("/" + Slashed(names)) == Upwards("/", names)
    ensures Ancestors("/" + (Slashed(names) + "/")) == Upwards("/", names) + ["/" + Slashed(names) + "/"]
  {
    hide AncestorsBelow, Ancestors, Elements, Slashed, Upwards;
    ElementsOf(names);
    AncestorsOfElements("/" + Slashed(names), "/", names);
    AncestorsOfElements("/" + (Slashed(names) + "/"), "/", names + [""]);
    assert Paths.Join("", "/") == "/" && Prefix("/") == "/";
    BelowIsUpwards("/", names);
    BelowThenEmpty("/", names);
  }

  lemma FromFirst(names: seq<string>)
    requires names != [] && forall i :: 0 <= i < |names| ==> IsName(names[i])
    ensures Ancestors(Slashed(names)) == Upwards(names[0] + "/", names[1..])
  {
    hide AncestorsBelow, Ancestors, Elements, Slashed, Upwards, Paths.Join;
    ElementsOf(names);
    assert IsName(names[0]);
    assert [names[0]] + names[1..] == names;
    AncestorsOfElements(Slashed(names), names[0], names[1..]);
    OneUp("", names[0]);
    assert "" + names[0] == names[0];
    BelowIsUpwards(names[0], names[1..]);
  }

  /** The ancestors of an absolute directory, from the root down to the directory itself, and of a relative
      one, from its second name on; node_modules are passed over. With a separator at its end the directory
      itself comes once more. */
  lemma AncestorsAre(names: seq<string>)
    requires names != [] && forall i :: 0 <= i < |names| ==> IsName(names[i])
    ensures Ancestors("/" + Slashed(names)) == Upwards("/", names)
    ensures Ancestors("/" + (Slashed(names) + "/")) == Upwards("/", names) + ["/" + Slashed(names) + "/"]
    ensures Ancestors(Slashed(names)) == Upwards(names[0] + "/", names[1..])
  {
    hide Ancestors, Slashed, Upwards;
    FromRoot(names);
    FromFirst(names);
  }

  /** Separators in a row count as one. */
  lemma SeparatorsInARow(s: string)
    ensures SkipSlashes("/" + s) == SkipSlashes(s)
    ensures s == "" || s[0] != '/' ==> SkipSlashes(s) == s
  {
    assert ("/" + s)[1..] == s;
  }
}

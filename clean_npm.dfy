/**
  * The path computations of the `clean_npm` management command
  * (server/management/commands/clean_npm.py): the HTML files it scans, the
  * dependency path it reads from a `{% static '...' %}` line, and the
  * parent folders of that path that must be kept. Walking the directory
  * tree, reading files and deleting are left to the caller: the walk and
  * the current directory are inputs.
  */
module CleanNpm {
  import opened Wrappers
  import opened Text
  import opened Paths

  /* ---------------- get_parent_folders ---------------- */

  /** The running `new_path`: the components joined one by one with `os.path.join`, starting from ''. */
  function JoinAll(parts: seq<string>): string {
    if parts == [] then "" else PathJoin(JoinAll(parts[..|parts| - 1]), parts[|parts| - 1])
  }

  /** The k-th parent folder: the current directory joined with the first k + 1 components. */
  function ParentFolder(cwd: string, parts: seq<string>, k: nat): string
    requires k < |parts|
  {
    PathJoin(cwd, JoinAll(parts[..k + 1]))
  }

  /** `get_parent_folders(path)` with `getcwd()` returning `cwd`. */
  method GetParentFolders(cwd: string, path: string) returns (paths: seq<string>)
    ensures |paths| == |Split(path, '/')|
    ensures forall k | 0 <= k < |paths| :: paths[k] == ParentFolder(cwd, Split(path, '/'), k)
  {
    var newPath := "";
    paths := [];
    var parts := Split(path, '/');
    for k := 0 to |parts|
      invariant newPath == JoinAll(parts[..k])
      invariant |paths| == k
      invariant forall j | 0 <= j < k :: paths[j] == ParentFolder(cwd, parts, j)
    {
      assert parts[..k + 1][..k] == parts[..k];
      newPath := PathJoin(newPath, parts[k]);
      paths := paths + [PathJoin(cwd, newPath)];
    }
  }

  predicate NoSlash(s: string) {
    forall k | 0 <= k < |s| :: s[k] != '/'
  }

  /** Joined components never start with a slash, because no component holds one. */
  lemma {:induction false} JoinAllRelative(parts: seq<string>)
    requires forall k | 0 <= k < |parts| :: NoSlash(parts[k])
    ensures JoinAll(parts) == [] || JoinAll(parts)[0] != '/'
  {
    if parts != [] {
      var init := parts[..|parts| - 1];
      JoinAllRelative(init);
      assert forall k | 0 <= k < |init| :: init[k] == parts[k];
    }
  }

  /** Joining a relative path to `a` extends `a`. */
  lemma JoinExtends(a: string, b: string)
    requires b == [] || b[0] != '/'
    ensures a <= PathJoin(a, b)
  {
  }

  /** `os.path.join(cwd, x)` for a relative `x` is `cwd`, a separator chosen by `cwd` alone, then `x`. */
  lemma JoinRelative(cwd: string, x: string)
    requires x == [] || x[0] != '/'
    ensures PathJoin(cwd, x) == (if cwd == "" || cwd[|cwd| - 1] == '/' then cwd else cwd + "/") + x
  {
  }

  lemma SplitPartsNoSlash(path: string)
    ensures forall k | 0 <= k < |Split(path, '/')| :: NoSlash(Split(path, '/')[k])
  {
    var parts := Split(path, '/');
    forall k | 0 <= k < |parts|
      ensures NoSlash(parts[k])
    {
      assert '/' !in parts[k];
    }
  }

  /** Each parent folder extends the one before it. */
  lemma ParentFoldersExtend(cwd: string, path: string, k: nat)
    requires k + 1 < |Split(path, '/')|
    ensures ParentFolder(cwd, Split(path, '/'), k) <= ParentFolder(cwd, Split(path, '/'), k + 1)
  {
    var parts := Split(path, '/');
    SplitPartsNoSlash(path);
    var a, b := parts[..k + 1], parts[..k + 2];
    assert b[..|b| - 1] == a;
    assert forall j | 0 <= j < |a| :: a[j] == parts[j];
    assert forall j | 0 <= j < |b| :: b[j] == parts[j];
    JoinAllRelative(a);
    JoinAllRelative(b);
    JoinExtends(JoinAll(a), parts[k + 1]);
    JoinRelative(cwd, JoinAll(a));
    JoinRelative(cwd, JoinAll(b));
  }

  /** Appending one part to a joined list, from the back. */
  lemma {:induction false} JoinSnoc(ps: seq<string>, x: string, sep: char)
    requires |ps| >= 1
    ensures Join(ps + [x], sep) == Join(ps, sep) + [sep] + x
  {
    if |ps| > 1 {
      assert (ps + [x])[1..] == ps[1..] + [x];
      JoinSnoc(ps[1..], x, sep);
    }
  }

  /** With no empty component before the last, the running join is the `/`-join of the components. */
  lemma {:induction false} JoinAllIsJoin(parts: seq<string>)
    requires forall k | 0 <= k < |parts| :: NoSlash(parts[k])
    requires forall k | 0 <= k < |parts| - 1 :: parts[k] != ""
    ensures JoinAll(parts) == Join(parts, '/')
    ensures |parts| >= 1 && parts[|parts| - 1] != "" ==> JoinAll(parts) != "" && JoinAll(parts)[|JoinAll(parts)| - 1] != '/'
  {
    if |parts| == 1 {
      assert parts[..0] == [];
    } else if |parts| > 1 {
      var init := parts[..|parts| - 1];
      var last := parts[|parts| - 1];
      assert forall k | 0 <= k < |init| :: init[k] == parts[k];
      JoinAllIsJoin(init);
      JoinSnoc(init, last, '/');
      assert parts == init + [last];
    }
  }

  /**
    * The last parent folder is `join(cwd, path)` when no component but the
    * last is empty; an absolute path or a doubled slash breaks this (see
    * `AbsolutePathLosesRoot`).
    */
  lemma LastParentIsPath(cwd: string, path: string)
    requires forall k | 0 <= k < |Split(path, '/')| - 1 :: Split(path, '/')[k] != ""
    ensures ParentFolder(cwd, Split(path, '/'), |Split(path, '/')| - 1) == PathJoin(cwd, path)
  {
    var parts := Split(path, '/');
    assert parts[..|parts| - 1 + 1] == parts;
    SplitPartsNoSlash(path);
    JoinAllIsJoin(parts);
    JoinSplit(path, '/');
  }

  /**
    * An absolute path loses its root: '/<name>' under the directory `cwd`
    * gives the folders `cwd + "/"` and `cwd + "/<name>"`, whereas
    * `os.path.join(cwd, "/<name>")` is '/<name>' itself.
    */
  lemma AbsolutePathLosesRoot(cwd: string, name: string)
    requires cwd != "" && cwd[|cwd| - 1] != '/'
    requires name != "" && '/' !in name
    ensures Split("/" + name, '/') == ["", name]
    ensures ParentFolder(cwd, ["", name], 0) == cwd + "/"
    ensures ParentFolder(cwd, ["", name], 1) == cwd + "/" + name
    ensures PathJoin(cwd, "/" + name) == "/" + name
  {
    assert "" + ['/'] + name == "/" + name;
    SplitAfter("", '/', name);
    var parts := ["", name];
    assert parts[..1] == [""] && JoinAll([""]) == "";
    assert parts[..2] == parts && JoinAll(parts) == name;
  }

  /* ---------------- get_paths ---------------- */

  /** One step of `os.walk`: a directory and the names of the files in it. */
  datatype WalkEntry = WalkEntry(dirpath: string, filenames: seq<string>)

  /** A file `get_paths` keeps: its name has the suffix and its path avoids node_modules. */
  predicate Wanted(dirpath: string, filename: string, filetype: string) {
    EndsWith(filename, filetype) && !Contains(PathJoin(dirpath, filename), "node_modules")
  }

  /** The paths kept from one directory, in listing order. */
  function KeptIn(dirpath: string, names: seq<string>, filetype: string): seq<string> {
    if names == [] then []
    else
      var last := names[|names| - 1];
      KeptIn(dirpath, names[..|names| - 1], filetype)
        + if Wanted(dirpath, last, filetype) then [PathJoin(dirpath, last)] else []
  }

  /** The paths kept from a whole walk, in walk order. */
  function Kept(walk: seq<WalkEntry>, filetype: string): seq<string> {
    if walk == [] then []
    else
      var last := walk[|walk| - 1];
      Kept(walk[..|walk| - 1], filetype) + KeptIn(last.dirpath, last.filenames, filetype)
  }

  /** `get_paths(filetype)` over the given walk. */
  method GetPaths(walk: seq<WalkEntry>, filetype: string) returns (files: seq<string>)
    ensures files == Kept(walk, filetype)
  {
    files := [];
    for i := 0 to |walk|
      invariant files == Kept(walk[..i], filetype)
    {
      var entry := walk[i];
      assert walk[..i + 1][..i] == walk[..i];
      ghost var before := files;
      for j := 0 to |entry.filenames|
        invariant files == before + KeptIn(entry.dirpath, entry.filenames[..j], filetype)
      {
        var filename := entry.filenames[j];
        assert entry.filenames[..j + 1][..j] == entry.filenames[..j];
        if EndsWith(filename, filetype) {
          var filepath := PathJoin(entry.dirpath, filename);
          if !Contains(filepath, "node_modules") {
            files := files + [filepath];
          }
        }
      }
      assert entry.filenames[..|entry.filenames|] == entry.filenames;
    }
    assert walk[..|walk|] == walk;
  }

  /** `x` is the path of a file of `entry` that `get_paths` keeps. */
  predicate KeptFrom(entry: WalkEntry, filetype: string, x: string) {
    exists j | 0 <= j < |entry.filenames| ::
      Wanted(entry.dirpath, entry.filenames[j], filetype) && x == PathJoin(entry.dirpath, entry.filenames[j])
  }

  lemma {:induction false} KeptInMeaning(entry: WalkEntry, names: seq<string>, filetype: string, x: string)
    requires names <= entry.filenames
    ensures x in KeptIn(entry.dirpath, names, filetype) <==>
      exists j | 0 <= j < |names| :: Wanted(entry.dirpath, names[j], filetype) && x == PathJoin(entry.dirpath, names[j])
  {
    if names != [] {
      var init := names[..|names| - 1];
      KeptInMeaning(entry, init, filetype, x);
      assert forall j | 0 <= j < |init| :: init[j] == names[j];
    }
  }

  /** A path is returned exactly when some walked directory holds a file with the suffix whose path avoids node_modules. */
  lemma {:induction false} GetPathsMeaning(walk: seq<WalkEntry>, filetype: string, x: string)
    ensures x in Kept(walk, filetype) <==> exists i | 0 <= i < |walk| :: KeptFrom(walk[i], filetype, x)
  {
    if walk != [] {
      var init := walk[..|walk| - 1];
      var last := walk[|walk| - 1];
      GetPathsMeaning(init, filetype, x);
      KeptInMeaning(last, last.filenames, filetype, x);
      assert forall i | 0 <= i < |init| :: init[i] == walk[i];
      assert x in Kept(walk, filetype) <==> x in Kept(init, filetype) || KeptFrom(last, filetype, x);
    }
  }

  /** Every returned path avoids node_modules and names a walked file with the suffix. */
  lemma GetPathsFiltered(walk: seq<WalkEntry>, filetype: string, x: string)
    requires x in Kept(walk, filetype)
    ensures !Contains(x, "node_modules")
    ensures exists i, j | 0 <= i < |walk| && 0 <= j < |walk[i].filenames| ::
      EndsWith(walk[i].filenames[j], filetype) && x == PathJoin(walk[i].dirpath, walk[i].filenames[j])
  {
    GetPathsMeaning(walk, filetype, x);
    var i :| 0 <= i < |walk| && KeptFrom(walk[i], filetype, x);
    var j :| 0 <= j < |walk[i].filenames| &&
      Wanted(walk[i].dirpath, walk[i].filenames[j], filetype) && x == PathJoin(walk[i].dirpath, walk[i].filenames[j]);
  }

  /* ---------------- the dependency of a template line ---------------- */

  /** Python's `s.rsplit('/', 1)[0]`: everything before the last slash, or all of `s` without one. */
  function BeforeLastSlash(s: string): (head: string)
    ensures LastSlash(s) >= 0 ==> s == head + "/" + Basename(s)
    ensures LastSlash(s) < 0 ==> head == s
  {
    SplitAtLastSlash(s);
    if LastSlash(s) < 0 then s else s[..LastSlash(s)]
  }

  /** The `IndexError` of `line.split("'")[1]` on a line without a quote. */
  datatype ExtractError = IndexError

  /**
    * The dependency a template line names: for a `{% static` line, the
    * text inside the first quotes if it mentions `node/`, with every `node/`
    * made `node_modules/` and the last component dropped; None for other lines.
    */
  function Dependency(line: string): (r: Result<Option<string>, ExtractError>)
    ensures r.Err? <==> Contains(line, "{% static") && '\'' !in line
  {
    if !Contains(line, "{% static") then Ok(None)
    else
      var parts := Split(line, '\'');
      if |parts| < 2 then
        Err(IndexError)
      else
        var quoted := parts[1];
        if !Contains(quoted, "node/") then Ok(None)
        else Ok(Some(BeforeLastSlash(Replace(quoted, "node/", "node_modules/"))))
  }

  /** The dependency and the dropped last component rebuild the rewritten quoted text. */
  lemma DependencyMeaning(line: string)
    requires Dependency(line).Ok? && Dependency(line).value.Some?
    ensures var quoted := Split(line, '\'')[1];
      var rewritten := Replace(quoted, "node/", "node_modules/");
      && Contains(line, "{% static") && Contains(quoted, "node/")
      && (LastSlash(rewritten) >= 0 ==> rewritten == Dependency(line).value.value + "/" + Basename(rewritten))
  {
  }

  /** Replacing a pattern that does not occur changes nothing. */
  lemma {:induction false} ReplaceAbsent(s: string, pattern: string, replacement: string)
    requires |pattern| > 0 && !Contains(s, pattern)
    ensures Replace(s, pattern, replacement) == s
    decreases |s|
  {
    if |s| >= |pattern| {
      ReplaceAbsent(s[1..], pattern, replacement);
      assert s == [s[0]] + s[1..];
    }
  }

  /** The text before the last slash of `a + "/" + b` is `a` when `b` has no slash. */
  lemma BeforeLastSlashAt(a: string, b: string)
    requires '/' !in b
    ensures BeforeLastSlash(a + "/" + b) == a
  {
    var s := a + "/" + b;
    assert s[|a|] == '/';
    assert LastSlash(s) == |a|;
    assert s[..|a|] == a;
  }

  /** A string starting with the pattern contains it. */
  lemma ContainsAtFront(pattern: string, rest: string)
    ensures Contains(pattern + rest, pattern)
  {
    assert (pattern + rest)[..|pattern|] == pattern;
  }

  /** A leading pattern is replaced, and nothing after it when the pattern does not occur there. */
  lemma ReplaceAtFront(pattern: string, rest: string, replacement: string)
    requires |pattern| > 0 && !Contains(rest, pattern)
    ensures Replace(pattern + rest, pattern, replacement) == replacement + rest
  {
    var s := pattern + rest;
    assert s[..|pattern|] == pattern && s[|pattern|..] == rest;
    ReplaceAbsent(rest, pattern, replacement);
  }

  /** The first two parts of a split, when the first separator follows `a` and the second follows `b`. */
  lemma SplitTwo(a: string, b: string, c: string, sep: char)
    requires sep !in a && sep !in b
    ensures |Split(a + [sep] + b + [sep] + c, sep)| >= 2
    ensures Split(a + [sep] + b + [sep] + c, sep)[..2] == [a, b]
  {
    var rest := b + [sep] + c;
    assert a + [sep] + b + [sep] + c == a + [sep] + rest;
    SplitAfter(a, sep, rest);
    SplitAfter(b, sep, c);
    assert ([a] + ([b] + Split(c, sep)))[..2] == [a, b];
  }

  /** The text between the first two quotes of a line. */
  lemma QuotedPart(head: string, quoted: string, post: string)
    requires '\'' !in head && '\'' !in quoted
    ensures var parts := Split(head + "'" + quoted + "'" + post, '\'');
      |parts| >= 2 && parts[1] == quoted
  {
    SplitTwo(head, quoted, post, '\'');
    assert head + "'" + quoted + "'" + post == head + ['\''] + quoted + ['\''] + post;
  }

  /**
    * `p + <dir>/<file>` mentions `p`, and replacing `p` by `r` then dropping
    * the last component gives the folder `r + <dir>` (for `p` = `node/`,
    * `r` = `node_modules/`).
    */
  lemma RewrittenFolder(p: string, r: string, dir: string, file: string)
    requires |p| > 0 && '/' !in file && !Contains(dir + "/" + file, p)
    ensures Contains(p + dir + "/" + file, p)
    ensures BeforeLastSlash(Replace(p + dir + "/" + file, p, r)) == r + dir
  {
    var rest := dir + "/" + file;
    assert p + dir + "/" + file == p + rest;
    ContainsAtFront(p, rest);
    ReplaceAtFront(p, rest, r);
    assert r + rest == (r + dir) + "/" + file;
    BeforeLastSlashAt(r + dir, file);
  }

  /**
    * A `{% static` line quoting `node/<dir>/<file>` names the folder
    * `node_modules/<dir>`; the line of the command's test, with `<dir>`
    * `test1/testdir` and `<file>` `testfile.txt`, is one of them.
    */
  lemma DependencyOfNodeLine(pre: string, dir: string, file: string, post: string)
    requires '\'' !in pre && '\'' !in dir && '\'' !in file
    requires '/' !in file
    requires !Contains(dir + "/" + file, "node/")
    ensures Dependency("{% static" + pre + "'" + ("node/" + dir + "/" + file) + "'" + post) == Ok(Some("node_modules/" + dir))
  {
    var head := "{% static" + pre;
    var quoted := "node/" + dir + "/" + file;
    var line := head + "'" + quoted + "'" + post;
    assert Contains(line, "{% static") by {
      assert line[..9] == "{% static";
    }
    assert '\'' !in head by {
      assert '\'' !in "{% static";
    }
    assert '\'' !in quoted by {
      assert '\'' !in "node/";
    }
    QuotedPart(head, quoted, post);
    RewrittenFolder("node/", "node_modules/", dir, file);
    assert line == "{% static" + pre + "'" + ("node/" + dir + "/" + file) + "'" + post;
  }

  /* ---------------- handle ---------------- */

  /** The parent folders of a dependency, as the set `handle` keeps. */
  function ParentFolderSet(cwd: string, path: string): set<string> {
    set k | 0 <= k < |Split(path, '/')| :: ParentFolder(cwd, Split(path, '/'), k)
  }

  /**
    * The folders the template lines make dependencies: every parent folder
    * of every dependency, in a set; the first line whose `{% static` has no
    * quote ends the command with `IndexError`.
    */
  function Needed(cwd: string, lines: seq<string>): Result<set<string>, ExtractError> {
    if lines == [] then Ok({})
    else
      var before :- Needed(cwd, lines[..|lines| - 1]);
      var dependency :- Dependency(lines[|lines| - 1]);
      Ok(before + if dependency.Some? then ParentFolderSet(cwd, dependency.value) else {})
  }

  /** The first phase of `handle` over the lines of all templates, in order. */
  method CollectDependencies(cwd: string, lines: seq<string>) returns (r: Result<set<string>, ExtractError>)
    ensures r == Needed(cwd, lines)
  {
    var dependencies: seq<string> := [];
    assert lines[..0] == [];
    assert (set x | x in dependencies) == {};
    for k := 0 to |lines|
      invariant Needed(cwd, lines[..k]) == Ok(set x | x in dependencies)
    {
      assert lines[..k + 1][..k] == lines[..k];
      var line := lines[k];
      ghost var before := set x | x in dependencies;
      assert lines[..k + 1][k] == line;
      if Contains(line, "{% static") {
        var parts := Split(line, '\'');
        if |parts| < 2 {
          NeededStopsAtError(cwd, lines, k + 1);
          assert Needed(cwd, lines).error.IndexError?;
          return Err(IndexError);
        }
        var quoted := parts[1];
        if Contains(quoted, "node/") {
          var dependencyPath := BeforeLastSlash(Replace(quoted, "node/", "node_modules/"));
          var folders := GetParentFolders(cwd, dependencyPath);
          assert (set x | x in folders) == ParentFolderSet(cwd, dependencyPath) by {
            forall x | x in ParentFolderSet(cwd, dependencyPath)
              ensures x in folders
            {
              var j :| 0 <= j < |Split(dependencyPath, '/')| && x == ParentFolder(cwd, Split(dependencyPath, '/'), j);
              assert folders[j] == x;
            }
          }
          dependencies := dependencies + folders;
          assert (set x | x in dependencies) == before + ParentFolderSet(cwd, dependencyPath);
          assert Dependency(line) == Ok(Some(dependencyPath));
        } else {
          assert Dependency(line) == Ok(None);
          assert before + {} == before;
        }
      } else {
        assert Dependency(line) == Ok(None);
        assert before + {} == before;
      }
      NeededStep(cwd, lines, k);
      assert Needed(cwd, lines[..k + 1]).value == set x | x in dependencies;
    }
    assert lines[..|lines|] == lines;
    r := Ok(set x | x in dependencies);
  }

  /** One more line, when neither it nor those before raise. */
  lemma NeededStep(cwd: string, lines: seq<string>, k: nat)
    requires k < |lines| && Needed(cwd, lines[..k]).Ok? && Dependency(lines[k]).Ok?
    ensures Needed(cwd, lines[..k + 1]) == Ok(Needed(cwd, lines[..k]).value +
      if Dependency(lines[k]).value.Some? then ParentFolderSet(cwd, Dependency(lines[k]).value.value) else {})
  {
    assert lines[..k + 1][..k] == lines[..k];
    assert lines[..k + 1][k] == lines[k];
  }

  /** Once a line raises, so does every longer run of lines. */
  lemma {:induction false} NeededStopsAtError(cwd: string, lines: seq<string>, k: nat)
    requires k <= |lines| && Needed(cwd, lines[..k]).Err?
    ensures Needed(cwd, lines).Err?
  {
    if k < |lines| {
      assert lines[..|lines| - 1][..k] == lines[..k];
      NeededStopsAtError(cwd, lines[..|lines| - 1], k);
    } else {
      assert lines[..k] == lines;
    }
  }

  /** Every parent folder of every dependency a line names is kept, up to the dependency itself when its components are non-empty. */
  lemma {:induction false} NeededKeepsParents(cwd: string, lines: seq<string>, k: nat)
    requires Needed(cwd, lines).Ok? && k < |lines|
    requires Dependency(lines[k]).Ok? && Dependency(lines[k]).value.Some?
    ensures ParentFolderSet(cwd, Dependency(lines[k]).value.value) <= Needed(cwd, lines).value
  {
    var init := lines[..|lines| - 1];
    if k < |lines| - 1 {
      assert init[k] == lines[k];
      NeededKeepsParents(cwd, init, k);
    }
  }

  /** With no empty component in it, the dependency folder itself is kept. */
  lemma NeededKeepsDependency(cwd: string, lines: seq<string>, k: nat)
    requires Needed(cwd, lines).Ok? && k < |lines|
    requires Dependency(lines[k]).Ok? && Dependency(lines[k]).value.Some?
    requires var parts := Split(Dependency(lines[k]).value.value, '/');
      forall j | 0 <= j < |parts| - 1 :: parts[j] != ""
    ensures PathJoin(cwd, Dependency(lines[k]).value.value) in Needed(cwd, lines).value
  {
    var d := Dependency(lines[k]).value.value;
    NeededKeepsParents(cwd, lines, k);
    LastParentIsPath(cwd, d);
    assert ParentFolder(cwd, Split(d, '/'), |Split(d, '/')| - 1) in ParentFolderSet(cwd, d);
  }

  /** The files of one directory the second phase removes: all of them when the directory is not a dependency. */
  function RemovedIn(entry: WalkEntry, dependencies: set<string>): seq<string> {
    if entry.dirpath in dependencies then []
    else seq(|entry.filenames|, j requires 0 <= j < |entry.filenames| => PathJoin(entry.dirpath, entry.filenames[j]))
  }

  /** The files the second phase removes over a walk of node_modules, in walk order. */
  function Removed(walk: seq<WalkEntry>, dependencies: set<string>): seq<string> {
    if walk == [] then [] else Removed(walk[..|walk| - 1], dependencies) + RemovedIn(walk[|walk| - 1], dependencies)
  }

  /** The second phase of `handle`: the files it removes. */
  method RemoveUnused(walk: seq<WalkEntry>, dependencies: set<string>) returns (removed: seq<string>)
    ensures removed == Removed(walk, dependencies)
  {
    removed := [];
    for i := 0 to |walk|
      invariant removed == Removed(walk[..i], dependencies)
    {
      assert walk[..i + 1][..i] == walk[..i];
      var entry := walk[i];
      if entry.dirpath !in dependencies {
        ghost var before := removed;
        ghost var here := RemovedIn(entry, dependencies);
        for j := 0 to |entry.filenames|
          invariant removed == before + here[..j]
        {
          assert here[..j + 1] == here[..j] + [PathJoin(entry.dirpath, entry.filenames[j])];
          removed := removed + [PathJoin(entry.dirpath, entry.filenames[j])];
        }
        assert here[..|entry.filenames|] == here;
      }
    }
    assert walk[..|walk|] == walk;
  }

  /** A file is removed exactly when it lies directly in a walked directory that is not a dependency. */
  lemma {:induction false} RemovedMeaning(walk: seq<WalkEntry>, dependencies: set<string>, x: string)
    ensures x in Removed(walk, dependencies) <==>
      exists i | 0 <= i < |walk| :: walk[i].dirpath !in dependencies && x in RemovedIn(walk[i], dependencies)
  {
    if walk != [] {
      var init := walk[..|walk| - 1];
      RemovedMeaning(init, dependencies, x);
      assert forall i | 0 <= i < |init| :: init[i] == walk[i];
    }
  }
}

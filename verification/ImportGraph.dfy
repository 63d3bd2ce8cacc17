/**
 * An entry's import graph. A file is checked against those already read only when it is pushed, so it can be
 * on the stack twice and be scanned again; the walk ends because the stack is last in, first out.
 */
module ImportGraph {
  import opened Basics

  type Path = string

  datatype Loader = Ts | Tsx | Js | Jsx

  /** The files that can be read, and the path and scanning functions the walk calls. */
  datatype Env = Env(
    disk: map<Path, string>,
    resolvePath: (Path, string) -> Path,
    dirname: Path -> Path,
    extname: Path -> string,
    scanImports: (Loader, string) -> seq<string>)

  /** The text of each file walked, and the names of the packages met on the way. */
  datatype Graph = Graph(files: map<Path, string>, packages: set<string>)

  datatype Failure = NoFile(file: Path) | NamesNoFile(directory: Path, specifier: string)

  /** What may have to be added to an import's path to name a file, the first that does counting. */
  const SUFFIXES := ["", ".ts", ".tsx", ".js", ".jsx", ".mjs", "/index.ts", "/index.tsx", "/index.js", "/index.jsx"]

  /** By extension, the language to scan for imports. A file with no such extension imports nothing. */
  const SCRIPTS := map[".ts" := Ts, ".tsx" := Tsx, ".js" := Js, ".jsx" := Jsx, ".mjs" := Js]

  predicate IsRelative(specifier: string) {
    "./" <= specifier || "../" <= specifier || "/" <= specifier
  }

  /** `s` up to its slash number `count`, counting from 1, or all of it. */
  function BeforeSlash(s: string, count: nat): string {
    if s == "" || (s[0] == '/' && count <= 1) then ""
    else [s[0]] + BeforeSlash(s[1..], if s[0] == '/' then count - 1 else count)
  }

  /** `specifier` up to its first slash, or its second when it has a scope. */
  function PackageOf(specifier: string): string {
    BeforeSlash(specifier, if "@" <= specifier then 2 else 1)
  }

  lemma {:induction false} BeforeSlashIn(name: string, rest: string, count: nat)
    requires '/' !in name && (rest == "" || rest[0] == '/')
    ensures BeforeSlash(name + rest, count)
         == name + if rest == "" || count <= 1 then "" else "/" + BeforeSlash(rest[1..], count - 1)
  {
    if name == "" {
      assert name + rest == rest;
    } else {
      assert (name + rest)[1..] == name[1..] + rest;
      BeforeSlashIn(name[1..], rest, count);
    }
  }

  /** A package's name is its own, and that of every subpath of it. */
  lemma PackageOfSubpath(scope: string, name: string, subpath: string)
    requires '/' !in scope && '/' !in name && "@" <= scope && !("@" <= name)
    ensures PackageOf(name) == PackageOf(name + ("/" + subpath)) == name
    ensures PackageOf(scope) == scope
    ensures PackageOf(scope + ("/" + name)) == PackageOf(scope + ("/" + (name + ("/" + subpath)))) == scope + "/" + name
  {
    assert name + "" == name && scope + "" == scope;
    assert name == "" || (name + ("/" + subpath))[0] == name[0];
    BeforeSlashIn(name, "", 1);
    BeforeSlashIn(name, "/" + subpath, 1);
    BeforeSlashIn(scope, "", 2);
    BeforeSlashIn(scope, "/" + name, 2);
    BeforeSlashIn(scope, "/" + (name + ("/" + subpath)), 2);
    assert ("/" + name)[1..] == name && ("/" + (name + ("/" + subpath)))[1..] == name + ("/" + subpath);
  }

  function FirstOnDisk(disk: map<Path, string>, base: Path, suffixes: seq<string>): (r: Option<Path>)
    ensures r.Some? ==> r.value in disk
    ensures r.None? <==> forall i :: 0 <= i < |suffixes| ==> base + suffixes[i] !in disk
    ensures r.Some? ==> exists i :: 0 <= i < |suffixes| && r.value == base + suffixes[i]
                                    && forall j :: 0 <= j < i ==> base + suffixes[j] !in disk
  {
    if suffixes == [] then None
    else if base + suffixes[0] in disk then Some(base + suffixes[0])
    else
      var rest := FirstOnDisk(disk, base, suffixes[1..]);
      assert forall i :: 0 < i < |suffixes| ==> suffixes[1..][i - 1] == suffixes[i];
      rest
  }

  /** The file that `specifier` names in a file of `directory`, if it names one. */
  function Resolved(env: Env, directory: Path, specifier: string): (r: Option<Path>)
    ensures r.Some? ==> r.value in env.disk
  {
    FirstOnDisk(env.disk, env.resolvePath(directory, specifier), SUFFIXES)
  }

  function Imports(env: Env, file: Path): seq<string>
    requires file in env.disk
  {
    var extension := env.extname(file);
    if extension in SCRIPTS then env.scanImports(SCRIPTS[extension], env.disk[file]) else []
  }

  // What the graph should be.

  ghost predicate Edge(env: Env, from: Path, to: Path) {
    && from in env.disk
    && exists i :: 0 <= i < |Imports(env, from)| && IsRelative(Imports(env, from)[i])
                   && Resolved(env, env.dirname(from), Imports(env, from)[i]) == Some(to)
  }

  ghost predicate IsWalk(env: Env, walk: seq<Path>) {
    walk != [] && forall i :: 0 < i < |walk| ==> Edge(env, walk[i - 1], walk[i])
  }

  ghost predicate Reaches(env: Env, root: Path, file: Path) {
    exists walk :: IsWalk(env, walk) && walk[0] == root && walk[|walk| - 1] == file
  }

  /** Every relative import of `file` names a file. */
  ghost predicate Resolves(env: Env, file: Path) {
    file in env.disk ==>
      forall i :: 0 <= i < |Imports(env, file)| && IsRelative(Imports(env, file)[i]) ==>
        Resolved(env, env.dirname(file), Imports(env, file)[i]).Some?
  }

  ghost predicate ImportsPackage(env: Env, file: Path, package: string) {
    && file in env.disk
    && exists i :: 0 <= i < |Imports(env, file)| && !IsRelative(Imports(env, file)[i])
                   && PackageOf(Imports(env, file)[i]) == package
  }

  /** A file is in `graph` if and only if `root` reaches it, and a package if and only if such a file imports it. */
  ghost predicate IsGraphOf(env: Env, root: Path, graph: Graph) {
    && (forall file :: file in graph.files <==> Reaches(env, root, file))
    && (forall file :: file in graph.files ==> file in env.disk && graph.files[file] == env.disk[file])
    && (forall package :: package in graph.packages <==>
         exists file :: Reaches(env, root, file) && ImportsPackage(env, file, package))
  }

  ghost predicate Walkable(env: Env, root: Path) {
    root in env.disk && forall file :: Reaches(env, root, file) ==> Resolves(env, file)
  }

  ghost predicate Explains(env: Env, root: Path, failure: Failure) {
    match failure
    case NoFile(file) => file == root && root !in env.disk
    case NamesNoFile(directory, specifier) =>
      exists file :: Reaches(env, root, file) && file in env.disk && env.dirname(file) == directory
                     && specifier in Imports(env, file) && IsRelative(specifier)
                     && Resolved(env, directory, specifier).None?
  }

  lemma RootReached(env: Env, root: Path)
    ensures Reaches(env, root, root)
  {
    assert IsWalk(env, [root]);
  }

  lemma StepReached(env: Env, root: Path, from: Path, to: Path)
    requires Reaches(env, root, from) && Edge(env, from, to)
    ensures Reaches(env, root, to)
  {
    var walk :| IsWalk(env, walk) && walk[0] == root && walk[|walk| - 1] == from;
    assert IsWalk(env, walk + [to]);
  }

  /** A set that holds the root and follows every edge holds all that is reached. */
  lemma {:induction false} ClosedHoldsReached(env: Env, root: Path, files: set<Path>, walk: seq<Path>)
    requires root in files && forall from, to :: from in files && Edge(env, from, to) ==> to in files
    requires IsWalk(env, walk) && walk[0] == root
    ensures walk[|walk| - 1] in files
  {
    if |walk| > 1 {
      var shorter := walk[..|walk| - 1];
      ClosedHoldsReached(env, root, files, shorter);
      assert Edge(env, shorter[|shorter| - 1], walk[|walk| - 1]);
    }
  }

  // The walk.

  /** The files read hold their text, are reached, and each relative import of theirs names a file. */
  ghost predicate Sound(env: Env, root: Path, files: map<Path, string>, pending: seq<Path>) {
    && (forall file :: file in files ==>
         file in env.disk && files[file] == env.disk[file] && Reaches(env, root, file) && Resolves(env, file))
    && (forall file :: file in pending ==> Reaches(env, root, file) && (file in env.disk || pending == [root]))
  }

  /**
   * What a file read imports is read or above it on the stack. A file on the
   * stack twice is read when its upper copy is popped, and by the time the
   * lower one is on top nothing is left above it to read.
   */
  ghost predicate LastInFirstOut(env: Env, files: map<Path, string>, pending: seq<Path>) {
    forall i, to :: 0 <= i < |pending| && pending[i] in files && Edge(env, pending[i], to) ==>
      to in files || Above(pending, i, to)
  }

  ghost predicate Above(pending: seq<Path>, i: int, to: Path) {
    exists k :: i < k < |pending| && 0 <= k && pending[k] == to
  }

  ghost predicate Closed(env: Env, root: Path, files: map<Path, string>, pending: seq<Path>) {
    && (root in files || root in pending)
    && forall from, to :: from in files && Edge(env, from, to) ==> to in files || to in pending
  }

  ghost predicate PackagesOf(env: Env, files: map<Path, string>, packages: set<string>) {
    forall package :: package in packages <==> exists file :: file in files && ImportsPackage(env, file, package)
  }

  /** What the walk knows of a file it has just popped and scanned. */
  ghost predicate Scanned(env: Env, before: map<Path, string>, stack: seq<Path>, file: Path, pushed: seq<Path>) {
    && stack != [] && file == stack[|stack| - 1] && file in env.disk && Resolves(env, file)
    && (forall to :: to in pushed ==> Edge(env, file, to) && to !in before && to != file)
    && (forall to :: Edge(env, file, to) ==> to in before || to == file || to in pushed)
  }

  /** A file popped again pushes nothing: all it imports was above it, and has been read. */
  lemma PoppedAgain(env: Env, before: map<Path, string>, stack: seq<Path>, file: Path, pushed: seq<Path>)
    requires Scanned(env, before, stack, file, pushed) && LastInFirstOut(env, before, stack) && file in before
    ensures pushed == []
  {
    assert forall to :: Edge(env, file, to) ==> to in before || Above(stack, |stack| - 1, to);
    HeadIn(pushed);
  }

  lemma StillSound(env: Env, root: Path, before: map<Path, string>, stack: seq<Path>, file: Path, pushed: seq<Path>)
    requires Scanned(env, before, stack, file, pushed) && Sound(env, root, before, stack)
    ensures Sound(env, root, before[file := env.disk[file]], stack[..|stack| - 1] + pushed)
  {
    var rest := stack[..|stack| - 1];
    assert stack == rest + [file];
    PushedReached(env, root, file, pushed);
    if stack == [root] {
      assert rest == [];
    }
  }

  lemma StillLastInFirstOut(env: Env, before: map<Path, string>, stack: seq<Path>, file: Path, pushed: seq<Path>)
    requires Scanned(env, before, stack, file, pushed) && LastInFirstOut(env, before, stack)
    ensures LastInFirstOut(env, before[file := env.disk[file]], stack[..|stack| - 1] + pushed)
  {
    var files, rest := before[file := env.disk[file]], stack[..|stack| - 1];
    var pending := rest + pushed;
    assert forall i :: |rest| <= i < |pending| ==> pending[i] in pushed;
    forall i, to | 0 <= i < |pending| && pending[i] in files && Edge(env, pending[i], to)
      ensures to in files || Above(pending, i, to)
    {
      if i < |rest| && pending[i] == file {
        if to in pushed {
          var k :| 0 <= k < |pushed| && pushed[k] == to;
          assert pending[|rest| + k] == to;
        }
      } else if i < |rest| && to !in before {
        assert stack[i] == pending[i];
        var k :| i < k < |stack| && stack[k] == to;
        assert k < |rest| ==> pending[k] == to;
      }
    }
  }

  lemma StillClosed(env: Env, root: Path, before: map<Path, string>, stack: seq<Path>, file: Path, pushed: seq<Path>)
    requires Scanned(env, before, stack, file, pushed) && Closed(env, root, before, stack)
    ensures Closed(env, root, before[file := env.disk[file]], stack[..|stack| - 1] + pushed)
  {
    assert stack == stack[..|stack| - 1] + [file];
  }

  lemma PushedReached(env: Env, root: Path, file: Path, pushed: seq<Path>)
    requires Reaches(env, root, file) && forall to :: to in pushed ==> Edge(env, file, to)
    ensures forall to :: to in pushed ==> Reaches(env, root, to) && to in env.disk
  {
    forall to | to in pushed ensures Reaches(env, root, to) && to in env.disk {
      StepReached(env, root, file, to);
    }
  }

  lemma PackagesGrow(env: Env, before: map<Path, string>, packages: set<string>, file: Path, added: set<string>)
    requires file in env.disk && PackagesOf(env, before, packages)
    requires forall package :: package in added <==> ImportsPackage(env, file, package)
    ensures PackagesOf(env, before[file := env.disk[file]], packages + added)
  {
  }

  /** With an empty stack, the files read are those reached. */
  lemma Finished(env: Env, root: Path, files: map<Path, string>, packages: set<string>)
    requires Sound(env, root, files, []) && Closed(env, root, files, []) && PackagesOf(env, files, packages)
    ensures Walkable(env, root) && IsGraphOf(env, root, Graph(files, packages))
  {
    forall file | Reaches(env, root, file) ensures file in files {
      var walk :| IsWalk(env, walk) && walk[0] == root && walk[|walk| - 1] == file;
      ClosedHoldsReached(env, root, files.Keys, walk);
    }
  }

  /** Everything the imports of `file` push or add, in order; or the first that names no file. */
  method ScanImports(env: Env, file: Path, files: map<Path, string>)
    returns (pushed: seq<Path>, packages: set<string>, failed: Option<string>)
    requires file in env.disk
    ensures failed.Some? ==>
              && failed.value in Imports(env, file) && IsRelative(failed.value)
              && Resolved(env, env.dirname(file), failed.value).None?
    ensures failed.None? ==> Resolves(env, file)
    ensures forall to :: to in pushed ==> Edge(env, file, to) && to !in files
    ensures failed.None? ==> forall to :: Edge(env, file, to) ==> to in files || to in pushed
    ensures failed.None? ==> forall package :: package in packages <==> ImportsPackage(env, file, package)
  {
    pushed, packages, failed := [], {}, None;
    var imports := Imports(env, file);
    for k := 0 to |imports|
      invariant failed.None?
      invariant forall i :: 0 <= i < k && IsRelative(imports[i]) ==>
                  var found := Resolved(env, env.dirname(file), imports[i]);
                  found.Some? && (found.value in files || found.value in pushed)
      invariant forall to :: to in pushed ==> Edge(env, file, to) && to !in files
      invariant forall i :: 0 <= i < k && !IsRelative(imports[i]) ==> PackageOf(imports[i]) in packages
      invariant forall package :: package in packages ==> ImportsPackage(env, file, package)
    {
      var specifier := imports[k];
      if IsRelative(specifier) {
        var found := Resolved(env, env.dirname(file), specifier);
        if found.None? {
          return pushed, packages, Some(specifier);
        }
        if found.value !in files {
          assert Edge(env, file, found.value);
          pushed := pushed + [found.value];
        }
      } else {
        assert ImportsPackage(env, file, PackageOf(specifier));
        packages := packages + {PackageOf(specifier)};
      }
    }
  }

  /**
   * The graph of `root`, which it has if and only if `root` is a file and each
   * relative import of each file reached is one. Otherwise the failure is a
   * file or an import that is not there.
   */
  method ImportGraph(env: Env, root: Path) returns (r: Result<Graph, Failure>)
    ensures r.Success? <==> Walkable(env, root)
    ensures r.Success? ==> IsGraphOf(env, root, r.value)
    ensures r.Failure? ==> Explains(env, root, r.error)
  {
    var files: map<Path, string> := map[];
    var packages: set<string> := {};
    var pending := [root];
    RootReached(env, root);
    while pending != []
      invariant Sound(env, root, files, pending)
      invariant LastInFirstOut(env, files, pending)
      invariant Closed(env, root, files, pending)
      invariant PackagesOf(env, files, packages)
      decreases env.disk.Keys - files.Keys, |pending|
    {
      var file := pending[|pending| - 1];
      if file !in env.disk {
        return Failure(NoFile(file));
      }
      ghost var before, stack, known := files, pending, packages;
      pending := pending[..|pending| - 1];
      files := files[file := env.disk[file]];
      var pushed, added, failed := ScanImports(env, file, files);
      if failed.Some? {
        return Failure(NamesNoFile(env.dirname(file), failed.value));
      }
      pending := pending + pushed;
      packages := packages + added;
      StillSound(env, root, before, stack, file, pushed);
      StillLastInFirstOut(env, before, stack, file, pushed);
      StillClosed(env, root, before, stack, file, pushed);
      if file in before {
        PoppedAgain(env, before, stack, file, pushed);
      }
      PackagesGrow(env, before, known, file, added);
    }
    Finished(env, root, files, packages);
    r := Success(Graph(files, packages));
  }

  /** The union of `graphs`. */
  function MergedGraph(graphs: seq<Graph>): Graph {
    if graphs == [] then Graph(map[], {})
    else
      var others := MergedGraph(graphs[1..]);
      Graph(graphs[0].files + others.files, graphs[0].packages + others.packages)
  }

  ghost predicate ReachedByAny(env: Env, roots: seq<Path>, file: Path) {
    exists i :: 0 <= i < |roots| && Reaches(env, roots[i], file)
  }

  lemma ReachedByFirst(env: Env, roots: seq<Path>, file: Path)
    requires roots != []
    ensures ReachedByAny(env, roots, file) <==> Reaches(env, roots[0], file) || ReachedByAny(env, roots[1..], file)
  {
    hide Reaches;
    assert forall i :: 0 <= i < |roots[1..]| ==> roots[1..][i] == roots[i + 1];
    if i :| 0 < i < |roots| && Reaches(env, roots[i], file) {
      assert Reaches(env, roots[1..][i - 1], file);
    }
  }

  lemma PackagesTogether(env: Env, a: Graph, b: Graph)
    requires PackagesOf(env, a.files, a.packages) && PackagesOf(env, b.files, b.packages)
    ensures PackagesOf(env, a.files + b.files, a.packages + b.packages)
  {
    hide ImportsPackage;
  }

  lemma GraphPackages(env: Env, root: Path, graph: Graph)
    requires IsGraphOf(env, root, graph)
    ensures PackagesOf(env, graph.files, graph.packages)
  {
    hide Reaches, ImportsPackage;
  }

  /** The merged graph of several entries holds what any of them reaches, and the packages those files import. */
  lemma {:induction false} MergedReaches(env: Env, roots: seq<Path>, graphs: seq<Graph>)
    requires |roots| == |graphs| && forall i :: 0 <= i < |roots| ==> IsGraphOf(env, roots[i], graphs[i])
    ensures var merged := MergedGraph(graphs);
            && (forall file :: file in merged.files <==> ReachedByAny(env, roots, file))
            && (forall file :: file in merged.files ==> file in env.disk && merged.files[file] == env.disk[file])
            && PackagesOf(env, merged.files, merged.packages)
    decreases |roots|
  {
    if graphs != [] {
      hide Reaches, ReachedByAny, PackagesOf;
      var others := MergedGraph(graphs[1..]);
      assert forall i :: 0 <= i < |roots[1..]| ==> roots[1..][i] == roots[i + 1] && graphs[1..][i] == graphs[i + 1];
      MergedReaches(env, roots[1..], graphs[1..]);
      assert IsGraphOf(env, roots[0], graphs[0]);
      GraphPackages(env, roots[0], graphs[0]);
      PackagesTogether(env, graphs[0], others);
      forall file ensures file in MergedGraph(graphs).files <==> ReachedByAny(env, roots, file) {
        ReachedByFirst(env, roots, file);
      }
    }
  }
}

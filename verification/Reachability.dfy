/** Two gates that walk import graphs: the UI modules no entry point loads, and the Go packages a change can affect. */
module Reachability {
  import opened Graphs
  import opened Sorting
  import opened TextOrder

  // ----- UI modules -----

  /** An import resolved to a module of the UI, or to nothing for a package or an asset. */
  datatype Import = Import(target: Target, typeOnly: bool)

  datatype Target = Outside | Inside(file: string)

  datatype Shape = Shape(imports: seq<Import>, runtimeExports: bool)

  type Modules = map<string, Shape>

  predicate Follows(i: Import, typesToo: bool) {
    i.target.Inside? && (typesToo || !i.typeOnly)
  }

  predicate Names(i: Import, typesToo: bool, file: string) {
    Follows(i, typesToo) && i.target.file == file
  }

  predicate ImportsFile(modules: Modules, typesToo: bool, a: string, b: string) {
    a in modules &&
    exists i :: 0 <= i < |modules[a].imports| && Names(modules[a].imports[i], typesToo, b)
  }

  /** The import graph: value imports only, or all of them. */
  function ImportEdges(modules: Modules, typesToo: bool): Edges {
    (a, b) => ImportsFile(modules, typesToo, a, b)
  }

  /** Every import that names a module of the UI names one that exists and parses. */
  ghost predicate Resolved(modules: Modules) {
    forall a, i :: a in modules && 0 <= i < |modules[a].imports| && modules[a].imports[i].target.Inside? ==>
                   modules[a].imports[i].target.file in modules
  }

  /** Halfway through a walk: everything seen or waiting is reachable, every root is seen or waiting, and so is every
      target of a seen module. */
  ghost predicate Walking(e: Edges, roots: set<string>, seen: set<string>, stack: seq<string>) {
    && (forall n :: n in seen || n in stack ==> Reaches(e, roots, n))
    && (forall n :: n in roots ==> n in seen || n in stack)
    && (forall a, b :: a in seen && e(a, b) ==> b in seen || b in stack)
  }

  lemma WalkPop(e: Edges, roots: set<string>, seen: set<string>, stack: seq<string>)
    requires Walking(e, roots, seen, stack) && stack != [] && stack[|stack| - 1] in seen
    ensures Walking(e, roots, seen, stack[..|stack| - 1])
  {
    var rest := stack[..|stack| - 1];
    assert forall n :: n in stack <==> n in rest || n == stack[|stack| - 1];
  }

  /** Visiting a new module: it moves from the stack to the seen set, and what it imports is pushed unless seen. */
  lemma WalkVisit(e: Edges, roots: set<string>, seen: set<string>, stack: seq<string>, pushed: seq<string>)
    requires Walking(e, roots, seen, stack) && stack != []
    requires var file := stack[|stack| - 1];
             && (forall n :: n in pushed ==> e(file, n))
             && (forall n :: e(file, n) ==> n in seen + {file} || n in pushed)
    ensures Walking(e, roots, seen + {stack[|stack| - 1]}, stack[..|stack| - 1] + pushed)
  {
    var file, rest := stack[|stack| - 1], stack[..|stack| - 1];
    assert forall n :: n in stack <==> n in rest || n == file;
    assert forall n :: n in rest + pushed <==> n in rest || n in pushed;
    forall n | n in pushed ensures Reaches(e, roots, n) {
      ReachesNext(e, roots, file, n);
    }
  }

  lemma WalkDone(e: Edges, roots: set<string>, seen: set<string>)
    requires Walking(e, roots, seen, [])
    ensures forall n :: n in seen <==> Reaches(e, roots, n)
  {
    ExactlyReachable(e, roots, seen);
  }

  /** The targets of one module's imports that are followed and not yet seen, in import order. */
  method Unseen(modules: Modules, typesToo: bool, file: string, seen: set<string>) returns (pushed: seq<string>)
    requires file in modules && file in seen && Resolved(modules)
    ensures forall n :: n in pushed ==> ImportsFile(modules, typesToo, file, n) && n in modules
    ensures forall n :: ImportsFile(modules, typesToo, file, n) ==> n in seen || n in pushed
  {
    pushed := [];
    var imports := modules[file].imports;
    for i := 0 to |imports|
      invariant forall n :: n in pushed ==> ImportsFile(modules, typesToo, file, n) && n in modules
      invariant forall j :: 0 <= j < i && Follows(imports[j], typesToo) ==>
                  imports[j].target.file in seen || imports[j].target.file in pushed
    {
      if Follows(imports[i], typesToo) && imports[i].target.file !in seen {
        assert Names(imports[i], typesToo, imports[i].target.file);
        pushed := pushed + [imports[i].target.file];
      }
    }
  }

  /** The walk terminates and its result is exactly what is reachable from the roots along followed imports. */
  method Walk(modules: Modules, roots: seq<string>, typesToo: bool) returns (seen: set<string>)
    requires Resolved(modules) && forall n :: n in roots ==> n in modules
    ensures forall n :: n in seen <==> Reaches(ImportEdges(modules, typesToo), (set r | r in roots), n)
    ensures seen <= modules.Keys
  {
    ghost var e, start := ImportEdges(modules, typesToo), set r | r in roots;
    seen := {};
    var stack := roots;
    forall n | n in stack {
      ReachesRoot(e, start, n);
    }
    while stack != []
      invariant Walking(e, start, seen, stack)
      invariant seen <= modules.Keys && forall n :: n in stack ==> n in modules
      decreases modules.Keys - seen, |stack|
    {
      var file, rest := stack[|stack| - 1], stack[..|stack| - 1];
      if file in seen {
        WalkPop(e, start, seen, stack);
        stack := rest;
      } else {
        var pushed := Unseen(modules, typesToo, file, seen + {file});
        WalkVisit(e, start, seen, stack, pushed);
        seen := seen + {file};
        stack := rest + pushed;
      }
    }
    WalkDone(e, start, seen);
  }

  /** A module the gate reports: no value import leads to it, and it is not merely a module of types that some import
      leads to. */
  ghost predicate Unreachable(modules: Modules, entries: set<string>, file: string) {
    && file in modules
    && !Reaches(ImportEdges(modules, false), entries, file)
    && (!Reaches(ImportEdges(modules, true), entries, file) || modules[file].runtimeExports)
  }

  /** The candidates to report, in the order they were found. */
  ghost function Dead(modules: Modules, entries: set<string>, candidates: seq<string>): seq<string> {
    if candidates == [] then []
    else
      var before, last := Dead(modules, entries, candidates[..|candidates| - 1]), candidates[|candidates| - 1];
      if Unreachable(modules, entries, last) then before + [last] else before
  }

  /** The paths as reported; how a path is made relative is a parameter. */
  function Relative(relative: string -> string, files: seq<string>): seq<string> {
    seq(|files|, i requires 0 <= i < |files| => relative(files[i]))
  }

  lemma LessIsWeakOrder()
    ensures WeakOrder(Less)
  {
    forall a, b | Less(a, b) ensures !Less(b, a) {
      LessTotal(a, b);
    }
    forall a, b, c | !Less(b, a) && !Less(c, b) ensures !Less(c, a) {
      LessTotal(a, b);
      LessTotal(b, c);
      LessTotal(a, c);
      if Less(a, b) && Less(b, c) {
        LessTransitive(a, b, c);
      }
    }
  }

  lemma SortedPaths(paths: seq<string>)
    ensures Sorted(Less, Sort(Less, paths))
  {
    LessIsWeakOrder();
    SortSorts(Less, paths);
  }

  /** The candidates that the two walks leave over. */
  method LeftOver(modules: Modules, candidates: seq<string>, loaded: set<string>, typed: set<string>, ghost entries: set<string>)
    returns (dead: seq<string>)
    requires forall n :: n in candidates ==> n in modules
    requires forall n :: n in loaded <==> Reaches(ImportEdges(modules, false), entries, n)
    requires forall n :: n in typed <==> Reaches(ImportEdges(modules, true), entries, n)
    ensures dead == Dead(modules, entries, candidates)
  {
    dead := [];
    for i := 0 to |candidates|
      invariant dead == Dead(modules, entries, candidates[..i])
    {
      assert candidates[..i + 1][..i] == candidates[..i];
      var file := candidates[i];
      if file !in loaded && (file !in typed || modules[file].runtimeExports) {
        dead := dead + [file];
      }
    }
    assert candidates[..|candidates|] == candidates;
  }

  /** The second walk starts from what the first one found, yet it finds exactly what all imports reach from the entry
      points; so the report, relative paths in order, is a statement about the entry points alone. */
  method UnreachableModules(modules: Modules, entries: seq<string>, candidates: seq<string>, relative: string -> string)
    returns (reported: seq<string>)
    requires Resolved(modules) && (forall n :: n in entries ==> n in modules) && forall n :: n in candidates ==> n in modules
    ensures Sorted(Less, reported)
    ensures multiset(reported) == multiset(Relative(relative, Dead(modules, (set r | r in entries), candidates)))
  {
    ghost var start := set r | r in entries;
    var loaded := Walk(modules, entries, false);
    var again := Listed(loaded);
    var typed := Walk(modules, again, true);
    assert (set r | r in again) == loaded;
    forall n ensures n in typed <==> Reaches(ImportEdges(modules, true), start, n) {
      FewerImports(modules);
      ReachesInTwoPhases(ImportEdges(modules, false), ImportEdges(modules, true), start, loaded, n);
    }
    var dead := LeftOver(modules, candidates, loaded, typed, start);
    SortedPaths(Relative(relative, dead));
    reported := Sort(Less, Relative(relative, dead));
  }

  /** What is reported: exactly the candidates that value imports do not reach and that either no import reaches or that
      have runtime exports. */
  lemma {:induction false} DeadExactly(modules: Modules, entries: set<string>, candidates: seq<string>, file: string)
    ensures file in Dead(modules, entries, candidates) <==> file in candidates && Unreachable(modules, entries, file)
  {
    if candidates != [] {
      var init := candidates[..|candidates| - 1];
      DeadExactly(modules, entries, init, file);
      assert candidates == init + [candidates[|candidates| - 1]];
    }
  }

  lemma FewerImports(modules: Modules)
    ensures forall a, b :: ImportEdges(modules, false)(a, b) ==> ImportEdges(modules, true)(a, b)
  {
    forall a, b | ImportsFile(modules, false, a, b) ensures ImportsFile(modules, true, a, b) {
      var i :| 0 <= i < |modules[a].imports| && Names(modules[a].imports[i], false, b);
      assert Names(modules[a].imports[i], true, b);
    }
  }

  method Listed(s: set<string>) returns (r: seq<string>)
    ensures forall n :: n in r <==> n in s
  {
    r := [];
    var todo := s;
    while todo != {}
      invariant todo <= s && forall n :: n in r <==> n in s - todo
      decreases todo
    {
      var n :| n in todo;
      r, todo := r + [n], todo - {n};
    }
  }

  // ----- The same in terms of chains of imports -----

  /** The module a imports the module b, by value or, if that counts, for its types. */
  predicate Loads(modules: Modules, typesToo: bool, a: string, b: string) {
    a in modules &&
    exists i :: 0 <= i < |modules[a].imports| &&
      (modules[a].imports[i] == Import(Inside(b), false) || (typesToo && modules[a].imports[i] == Import(Inside(b), true)))
  }

  /** A chain of imports from an entry point to a module. */
  predicate Chain(modules: Modules, entries: set<string>, typesToo: bool, p: seq<string>, file: string) {
    && p != [] && p[0] in entries && p[|p| - 1] == file
    && forall i :: 0 <= i < |p| - 1 ==> Loads(modules, typesToo, p[i], p[i + 1])
  }

  lemma LoadsIsEdge(modules: Modules, typesToo: bool, a: string, b: string)
    ensures Loads(modules, typesToo, a, b) <==> ImportEdges(modules, typesToo)(a, b)
  {
    if Loads(modules, typesToo, a, b) {
      var i :| 0 <= i < |modules[a].imports| &&
        (modules[a].imports[i] == Import(Inside(b), false) || (typesToo && modules[a].imports[i] == Import(Inside(b), true)));
      assert Names(modules[a].imports[i], typesToo, b);
    }
    if ImportsFile(modules, typesToo, a, b) {
      var i :| 0 <= i < |modules[a].imports| && Names(modules[a].imports[i], typesToo, b);
      assert modules[a].imports[i] == Import(Inside(b), modules[a].imports[i].typeOnly);
    }
  }

  lemma ChainIsPath(modules: Modules, entries: set<string>, typesToo: bool, p: seq<string>, file: string)
    ensures Chain(modules, entries, typesToo, p, file) <==> Leads(ImportEdges(modules, typesToo), entries, p, file)
  {
    forall i | 0 <= i < |p| - 1 {
      LoadsIsEdge(modules, typesToo, p[i], p[i + 1]);
    }
  }

  lemma ChainsReach(modules: Modules, entries: set<string>, typesToo: bool, file: string)
    ensures Reaches(ImportEdges(modules, typesToo), entries, file) <==>
            exists p :: Chain(modules, entries, typesToo, p, file)
  {
    forall p {
      ChainIsPath(modules, entries, typesToo, p, file);
    }
  }

  /** The gate in the source's own terms: a candidate is reported exactly when it is a module, every chain of imports
      that leads to it from an entry point holds a type-only import, and either there is no such chain at all or the
      module has runtime exports. */
  lemma DeadByChains(modules: Modules, entries: set<string>, candidates: seq<string>, file: string)
    ensures file in Dead(modules, entries, candidates) <==>
            && file in candidates && file in modules
            && (forall p :: !Chain(modules, entries, false, p, file))
            && (modules[file].runtimeExports || forall p :: !Chain(modules, entries, true, p, file))
  {
    DeadExactly(modules, entries, candidates, file);
    ChainsReach(modules, entries, false, file);
    ChainsReach(modules, entries, true, file);
  }

  // ----- Go packages -----

  datatype Package = Package(importPath: string, imports: set<string>, testImports: set<string>)

  predicate ImportedBy(packages: seq<Package>, dep: string, importer: string) {
    exists i :: 0 <= i < |packages| && packages[i].importPath == importer && dep in packages[i].imports
  }

  function ImporterEdges(packages: seq<Package>): Edges {
    (a, b) => ImportedBy(packages, a, b)
  }

  function Paths(packages: seq<Package>): set<string> {
    set i | 0 <= i < |packages| :: packages[i].importPath
  }

  /** The packages that import dep. */
  function ImportersOf(packages: seq<Package>, dep: string): set<string> {
    set i | 0 <= i < |packages| && dep in packages[i].imports :: packages[i].importPath
  }

  /** Adding the importers of one package: those not yet in the closure join it and the frontier. */
  method AddImporters(importers: set<string>, closure: set<string>, frontier: seq<string>)
    returns (grown: set<string>, next: seq<string>)
    ensures grown == closure + importers
    ensures forall n :: n in next <==> n in frontier || n in importers - closure
    ensures grown == closure ==> next == frontier
  {
    grown, next := closure, frontier;
    var todo := importers;
    while todo != {}
      invariant todo <= importers && grown == closure + (importers - todo)
      invariant forall n :: n in next <==> n in frontier || n in (importers - todo) - closure
      invariant grown == closure ==> next == frontier
      decreases todo
    {
      var n :| n in todo;
      todo := todo - {n};
      if n !in grown {
        grown, next := grown + {n}, next + [n];
      }
    }
  }

  /** Halfway through the closure: everything in it is reachable from the changed packages, and every importer of a
      member is in it unless that member still waits. */
  ghost predicate Closing(e: Edges, changed: set<string>, closure: set<string>, frontier: seq<string>) {
    && changed <= closure
    && (forall n :: n in closure ==> Reaches(e, changed, n))
    && (forall n :: n in frontier ==> n in closure)
    && (forall a, b :: a in closure && a !in frontier && e(a, b) ==> b in closure)
  }

  lemma CloseOne(packages: seq<Package>, changed: set<string>, closure: set<string>, frontier: seq<string>,
                 grown: set<string>, next: seq<string>)
    requires Closing(ImporterEdges(packages), changed, closure, frontier) && frontier != []
    requires var dep, rest := frontier[|frontier| - 1], frontier[..|frontier| - 1];
             && grown == closure + ImportersOf(packages, dep)
             && forall n :: n in next <==> n in rest || n in ImportersOf(packages, dep) - closure
    ensures Closing(ImporterEdges(packages), changed, grown, next)
  {
    var e, dep, rest := ImporterEdges(packages), frontier[|frontier| - 1], frontier[..|frontier| - 1];
    assert forall n :: n in frontier <==> n in rest || n == dep;
    forall n | n in ImportersOf(packages, dep) ensures Reaches(e, changed, n) {
      assert ImportedBy(packages, dep, n);
      ReachesNext(e, changed, dep, n);
    }
    forall a, b | a in grown && a !in next && e(a, b) ensures b in grown {
      assert ImportedBy(packages, a, b);
      assert b in ImportersOf(packages, a);
    }
  }

  /** What a change can affect: the least set that holds the changed packages and every importer of a member, plus the
      packages whose tests import a member. Test imports do not propagate further. */
  method AffectedPackages(changed: set<string>, packages: seq<Package>) returns (affected: set<string>, closure: set<string>)
    ensures forall n :: n in closure <==> Reaches(ImporterEdges(packages), changed, n)
    ensures forall n :: n in affected <==>
              n in closure || exists i :: 0 <= i < |packages| && packages[i].importPath == n && packages[i].testImports * closure != {}
  {
    ghost var e, universe := ImporterEdges(packages), changed + Paths(packages);
    closure := changed;
    var frontier := Listed(changed);
    forall n | n in changed {
      ReachesRoot(e, changed, n);
    }
    while frontier != []
      invariant Closing(e, changed, closure, frontier) && closure <= universe
      decreases universe - closure, |frontier|
    {
      var dep, rest := frontier[|frontier| - 1], frontier[..|frontier| - 1];
      var grown, next := AddImporters(ImportersOf(packages, dep), closure, rest);
      CloseOne(packages, changed, closure, frontier, grown, next);
      closure, frontier := grown, next;
    }
    ExactlyReachable(e, changed, closure);
    var testers := set i | 0 <= i < |packages| && packages[i].testImports * closure != {} :: packages[i].importPath;
    affected := closure + testers;
  }

  /** The closure is the least of its kind: any set of packages holding the changed ones and every importer of a member
      holds all of it. */
  lemma ClosureIsLeast(packages: seq<Package>, changed: set<string>, closure: set<string>, other: set<string>)
    requires forall n :: n in closure <==> Reaches(ImporterEdges(packages), changed, n)
    requires changed <= other && Closed(ImporterEdges(packages), other)
    ensures closure <= other && changed <= closure && Closed(ImporterEdges(packages), closure)
  {
    var e := ImporterEdges(packages);
    forall n | n in closure ensures n in other {
      ClosedCovers(e, changed, other, n);
    }
    forall n | n in changed ensures n in closure {
      ReachesRoot(e, changed, n);
    }
    forall a, b | a in closure && e(a, b) ensures b in closure {
      ReachesNext(e, changed, a, b);
    }
  }
}

/**
 The import-graph checker: a breadth-first search from a board top over resolved `use`
 statements that reports every reachable statement whose text begins with `lib::sim::`,
 together with a shortest import path to its file.
 */
module ImportGraph {
  import opened Wrappers
  import opened UseSpec

  /** A source file, named by its path segments below the source root without the suffix. */
  type File = seq<string>

  /** One `use` statement: its line and the text between `use` and the semicolon. */
  datatype Use = Use(line: nat, spec: string)

  /** The source tree: every existing file and its `use` statements in order. */
  type Sources = map<File, seq<Use>>

  datatype Edge = Edge(parent: File, importPath: Path, line: nat)

  datatype Step = Step(parent: File, importPath: Path, child: File)

  datatype Offense = Offense(file: File, line: nat, spec: string, reachability: seq<Step>)

  predicate IsLib(spec: string) {
    |spec| >= 5 && spec[..5] == "lib::"
  }

  predicate IsSim(spec: string) {
    |spec| >= 10 && spec[..10] == "lib::sim::"
  }

  /** A statement whose paths are followed. */
  predicate IsFollowed(spec: string) {
    IsLib(spec) && !IsSim(spec)
  }

  // ---- resolving an import path ----

  /** The file a stem names: the file itself, or else the `main` file of the directory. */
  function FileAt(sources: Sources, stem: File): Option<File> {
    if stem in sources then Some(stem) else if stem + ["main"] in sources then Some(stem + ["main"]) else None
  }

  /** The longest nonempty prefix of the segments that names a file. */
  function ResolveStem(sources: Sources, segments: File): Option<File> {
    if segments == [] then None
    else if FileAt(sources, segments).Some? then FileAt(sources, segments)
    else ResolveStem(sources, segments[..|segments| - 1])
  }

  function Resolve(sources: Sources, path: Path): Option<File> {
    if |path| < 2 || path[0] != "lib" then None else ResolveStem(sources, path[1..])
  }

  method ResolveImportFile(sources: Sources, path: Path) returns (file: Option<File>)
    ensures file == Resolve(sources, path)
  {
    if |path| < 2 || path[0] != "lib" {
      return None;
    }
    var segments := path[1..];
    var end := |segments|;
    assert segments[..end] == segments;
    while end > 0
      invariant 0 <= end <= |segments|
      invariant Resolve(sources, path) == ResolveStem(sources, segments[..end])
    {
      var stem := segments[..end];
      if stem in sources {
        return Some(stem);
      }
      if stem + ["main"] in sources {
        return Some(stem + ["main"]);
      }
      assert stem[..end - 1] == segments[..end - 1];
      end := end - 1;
    }
    file := None;
  }

  lemma {:induction false} ResolvedFileExists(sources: Sources, segments: File)
    ensures ResolveStem(sources, segments).Some? ==> ResolveStem(sources, segments).value in sources
    decreases |segments|
  {
    if segments != [] {
      ResolvedFileExists(sources, segments[..|segments| - 1]);
    }
  }

  /** No longer prefix names a file than the one resolution picks. */
  lemma {:induction false} ResolvesToLongestPrefix(sources: Sources, segments: File, n: nat)
    requires 0 < n <= |segments| && FileAt(sources, segments[..n]).Some?
    requires forall m :: n < m <= |segments| ==> FileAt(sources, segments[..m]) == None
    ensures ResolveStem(sources, segments) == FileAt(sources, segments[..n])
    decreases |segments|
  {
    assert segments[..|segments|] == segments;
    if n < |segments| {
      var shorter := segments[..|segments| - 1];
      assert forall m :: 0 <= m <= |shorter| ==> shorter[..m] == segments[..m];
      ResolvesToLongestPrefix(sources, shorter, n);
    }
  }

  /** The first n segments behind `lib` name a file, no more segments do, and it is the file itself if there is one and
      the directory's `main` file otherwise. */
  predicate ResolvesAt(sources: Sources, path: Path, n: int, f: File)
    requires 2 <= n <= |path|
  {
    && (path[1..n] in sources || path[1..n] + ["main"] in sources)
    && (forall m :: n < m <= |path| ==> path[1..m] !in sources && path[1..m] + ["main"] !in sources)
    && f == if path[1..n] in sources then path[1..n] else path[1..n] + ["main"]
  }

  /** Which file a path resolves to, by the source tree alone. */
  lemma ResolvesIff(sources: Sources, path: Path, f: File)
    ensures Resolve(sources, path) == Some(f) <==>
            |path| >= 2 && path[0] == "lib" && exists n :: 2 <= n <= |path| && ResolvesAt(sources, path, n, f)
  {
    if Resolve(sources, path) == Some(f) {
      var n := NamingPrefix(sources, path[1..], f);
      assert path[1..][..n] == path[1..n + 1];
      assert forall m :: 0 < m <= |path| - 1 ==> path[1..][..m] == path[1..m + 1];
      forall m | n + 1 < m <= |path|
        ensures path[1..m] !in sources && path[1..m] + ["main"] !in sources
      {
        assert path[1..][..m - 1] == path[1..m] && FileAt(sources, path[1..][..m - 1]) == None;
      }
      assert ResolvesAt(sources, path, n + 1, f);
    }
    if |path| >= 2 && path[0] == "lib" {
      if n :| 2 <= n <= |path| && ResolvesAt(sources, path, n, f) {
        assert forall m :: 0 < m <= |path| - 1 ==> path[1..][..m] == path[1..m + 1];
        ResolvesToLongestPrefix(sources, path[1..], n - 1);
      }
    }
  }

  lemma {:induction false} NamingPrefix(sources: Sources, segments: File, f: File) returns (n: nat)
    requires ResolveStem(sources, segments) == Some(f)
    ensures 0 < n <= |segments| && FileAt(sources, segments[..n]) == Some(f)
    ensures forall m :: n < m <= |segments| ==> FileAt(sources, segments[..m]) == None
    decreases |segments|
  {
    assert segments[..|segments|] == segments;
    if FileAt(sources, segments).Some? {
      n := |segments|;
    } else {
      var shorter := segments[..|segments| - 1];
      n := NamingPrefix(sources, shorter, f);
      assert forall m :: 0 <= m <= |shorter| ==> shorter[..m] == segments[..m];
    }
  }

  // ---- the import graph ----

  /** Statement k of a file imports `child` through its path m. */
  predicate ImportsAt(sources: Sources, parent: File, k: int, m: int, path: Path, child: File) {
    IsPathOf(sources, parent, k, m, path) && Resolve(sources, path) == Some(child)
  }

  /** Path m of statement k, a followed one. */
  predicate IsPathOf(sources: Sources, f: File, k: int, m: int, path: Path) {
    && f in sources && 0 <= k < |sources[f]| && IsFollowed(sources[f][k].spec)
    && var parsed := ParseImportPaths(sources[f][k].spec);
       parsed.Success? && 0 <= m < |parsed.value| && parsed.value[m] == path
  }

  ghost predicate ImportsVia(sources: Sources, parent: File, path: Path, child: File) {
    exists k, m :: ImportsAt(sources, parent, k, m, path, child)
  }

  ghost predicate Imports(sources: Sources, parent: File, child: File) {
    exists path :: ImportsVia(sources, parent, path, child)
  }

  /** A chain of files, each importing the next. */
  ghost predicate IsImportPath(sources: Sources, top: File, target: File, files: seq<File>) {
    && files != [] && files[0] == top && files[|files| - 1] == target
    && forall i :: 0 <= i < |files| - 1 ==> Imports(sources, files[i], files[i + 1])
  }

  ghost predicate Reachable(sources: Sources, top: File, target: File) {
    exists files :: IsImportPath(sources, top, target, files)
  }

  /** A followed statement that does not parse. */
  predicate MalformedAt(sources: Sources, f: File, k: int) {
    f in sources && 0 <= k < |sources[f]| && IsFollowed(sources[f][k].spec) &&
    ParseImportPaths(sources[f][k].spec).Failure?
  }

  predicate HasMalformed(sources: Sources, f: File) {
    f in sources && exists k :: 0 <= k < |sources[f]| && MalformedAt(sources, f, k)
  }

  /** The reported steps lead from the top to the target, each along an import written in its parent. */
  ghost predicate IsChain(sources: Sources, top: File, target: File, steps: seq<Step>) {
    && (steps == [] ==> target == top)
    && (steps != [] ==> steps[0].parent == top && steps[|steps| - 1].child == target)
    && (forall i :: 0 <= i < |steps| - 1 ==> steps[i].child == steps[i + 1].parent)
    && (forall i :: 0 <= i < |steps| ==> ImportsVia(sources, steps[i].parent, steps[i].importPath, steps[i].child))
  }

  /** The offending statements of the first n statements of a file, and of the first n files. */
  function SimUses(file: File, uses: seq<Use>): seq<(File, nat, string)> {
    if uses == [] then []
    else
      var last := uses[|uses| - 1];
      SimUses(file, uses[..|uses| - 1]) + SimUseOf(file, last)
  }

  function AllSimUses(sources: Sources, files: seq<File>): seq<(File, nat, string)>
  {
    if files == [] then []
    else
      var last := files[|files| - 1];
      AllSimUses(sources, files[..|files| - 1]) + if last in sources then SimUses(last, sources[last]) else []
  }

  function Locations(offenses: seq<Offense>): (l: seq<(File, nat, string)>)
    ensures |l| == |offenses|
    ensures forall i :: 0 <= i < |l| ==> l[i] == (offenses[i].file, offenses[i].line, offenses[i].spec)
  {
    seq(|offenses|, i requires 0 <= i < |offenses| => (offenses[i].file, offenses[i].line, offenses[i].spec))
  }

  // ---- the search state ----

  type Predecessors = map<File, Option<Edge>>

  /** What a search has found: the files in the order they were enqueued, the edge each was met by, its depth, and the
      index of the file being scanned. */
  datatype Discovered = Discovered(order: seq<File>, pred: Predecessors, depth: map<File, nat>, at: nat)

  /** Depth never decreases along the order, and no file lies more than one deeper than the one being scanned. */
  ghost predicate Layers(top: File, t: Discovered) {
    && t.order != [] && t.order[0] == top
    && (forall i, j :: 0 <= i < j < |t.order| ==> t.order[i] != t.order[j])
    && (forall f :: f in t.depth <==> f in t.order) && t.depth[top] == 0
    && (forall i, j :: 0 <= i < j < |t.order| ==> t.depth[t.order[i]] <= t.depth[t.order[j]])
    && (t.at < |t.order| ==> forall f :: f in t.depth ==> t.depth[f] <= t.depth[t.order[t.at]] + 1)
  }

  /** Every file but the top hangs one below a file that imports it. */
  ghost predicate Parents(sources: Sources, top: File, t: Discovered) {
    && t.pred.Keys == t.depth.Keys && top in t.pred && t.pred[top] == None
    && (forall f :: f in t.pred ==> f in sources)
    && (forall f {:trigger HasParent(sources, t, f)} :: f in t.pred && f != top ==> HasParent(sources, t, f))
  }

  ghost predicate HasParent(sources: Sources, t: Discovered, f: File) {
    f in t.pred && f in t.depth && t.pred[f].Some? &&
    var e := t.pred[f].value;
    e.parent in t.pred && e.parent in t.depth && t.depth[f] == t.depth[e.parent] + 1 &&
    ImportsVia(sources, e.parent, e.importPath, f)
  }

  ghost predicate SearchTree(sources: Sources, top: File, t: Discovered) {
    Layers(top, t) && Parents(sources, top, t)
  }

  /** Everything statement k imports has been found, at most one deeper than its file. */
  ghost predicate StatementDone(sources: Sources, depth: map<File, nat>, f: File, k: int) {
    f in depth && forall m, path, child :: ImportsAt(sources, f, k, m, path, child) ==> Near(depth, f, child)
  }

  predicate Near(depth: map<File, nat>, f: File, child: File)
    requires f in depth
  {
    child in depth && depth[child] <= depth[f] + 1
  }

  ghost predicate FileDone(sources: Sources, depth: map<File, nat>, f: File) {
    f in sources && forall k :: 0 <= k < |sources[f]| ==>
      StatementDone(sources, depth, f, k) && !MalformedAt(sources, f, k)
  }

  ghost predicate FilesDone(sources: Sources, depth: map<File, nat>, files: seq<File>) {
    files == [] ||
    (FilesDone(sources, depth, files[..|files| - 1]) && FileDone(sources, depth, files[|files| - 1]))
  }

  lemma {:induction false} FileDoneAt(sources: Sources, depth: map<File, nat>, files: seq<File>, i: nat)
    requires FilesDone(sources, depth, files) && i < |files|
    ensures FileDone(sources, depth, files[i])
    decreases |files|
  {
    if i < |files| - 1 {
      FileDoneAt(sources, depth, files[..|files| - 1], i);
    }
  }

  /** Every recorded offense carries a chain as long as its file is deep. */
  ghost predicate Explained(sources: Sources, top: File, depth: map<File, nat>, offenses: seq<Offense>) {
    offenses == [] ||
    (var o := offenses[|offenses| - 1];
     Explained(sources, top, depth, offenses[..|offenses| - 1]) && o.file in depth &&
     |o.reachability| == depth[o.file] && IsChain(sources, top, o.file, o.reachability))
  }

  lemma {:induction false} ExplainedAt(
    sources: Sources, top: File, depth: map<File, nat>, offenses: seq<Offense>, i: nat)
    requires Explained(sources, top, depth, offenses) && i < |offenses|
    ensures var o := offenses[i];
            o.file in depth && |o.reachability| == depth[o.file] && IsChain(sources, top, o.file, o.reachability)
    decreases |offenses|
  {
    if i < |offenses| - 1 {
      ExplainedAt(sources, top, depth, offenses[..|offenses| - 1], i);
    }
  }

  /** A later state of the search, with the same file being scanned: nothing found is lost or moved. */
  ghost predicate Extends(later: Discovered, earlier: Discovered) {
    && earlier.order <= later.order && later.at == earlier.at
    && forall f :: f in earlier.depth ==> f in later.depth && later.depth[f] == earlier.depth[f]
  }

  lemma {:induction false} DoneIsKept(sources: Sources, later: Discovered, earlier: Discovered, files: seq<File>)
    requires Extends(later, earlier) && FilesDone(sources, earlier.depth, files)
    ensures FilesDone(sources, later.depth, files)
    decreases |files|
  {
    if files != [] {
      DoneIsKept(sources, later, earlier, files[..|files| - 1]);
      FileStaysDone(sources, later, earlier, files[|files| - 1]);
    }
  }

  lemma FileStaysDone(sources: Sources, later: Discovered, earlier: Discovered, f: File)
    requires Extends(later, earlier) && FileDone(sources, earlier.depth, f)
    ensures FileDone(sources, later.depth, f)
  {
    forall k | 0 <= k < |sources[f]|
      ensures StatementDone(sources, later.depth, f, k)
    {
      StatementStaysDone(sources, later, earlier, f, k);
    }
  }

  lemma StatementStaysDone(sources: Sources, later: Discovered, earlier: Discovered, f: File, k: int)
    requires Extends(later, earlier) && StatementDone(sources, earlier.depth, f, k)
    ensures StatementDone(sources, later.depth, f, k)
  {
    forall m, path, child | ImportsAt(sources, f, k, m, path, child)
      ensures Near(later.depth, f, child)
    {
      assert Near(earlier.depth, f, child);
    }
  }

  lemma {:induction false} ExplainedIsKept(
    sources: Sources, top: File, later: Discovered, earlier: Discovered, offenses: seq<Offense>)
    requires Extends(later, earlier) && Explained(sources, top, earlier.depth, offenses)
    ensures Explained(sources, top, later.depth, offenses)
    decreases |offenses|
  {
    if offenses != [] {
      ExplainedIsKept(sources, top, later, earlier, offenses[..|offenses| - 1]);
    }
  }

  /** The tree with a file enqueued that the scanned one imports. */
  function Grown(t: Discovered, edge: Edge, child: File): Discovered {
    var above := if edge.parent in t.depth then t.depth[edge.parent] else 0;
    t.(order := t.order + [child], pred := t.pred[child := Some(edge)], depth := t.depth[child := above + 1])
  }

  /** A file met for the first time, imported by the scanned one. */
  ghost predicate FreshImport(sources: Sources, t: Discovered, edge: Edge, child: File) {
    && t.at < |t.order| && t.order[t.at] == edge.parent && child in sources && child !in t.pred
    && ImportsVia(sources, edge.parent, edge.importPath, child)
  }

  lemma EnqueueKeepsLayers(top: File, t: Discovered, edge: Edge, child: File, grown: Discovered)
    requires Layers(top, t) && t.at < |t.order| && t.order[t.at] == edge.parent && child !in t.order
    requires edge.parent in t.depth && grown == Grown(t, edge, child)
    ensures Layers(top, grown)
  {
  }

  lemma EnqueueKeepsParents(sources: Sources, top: File, t: Discovered, edge: Edge, child: File, grown: Discovered)
    requires Parents(sources, top, t) && edge.parent in t.pred && child in sources && child !in t.pred
    requires ImportsVia(sources, edge.parent, edge.importPath, child) && grown == Grown(t, edge, child)
    ensures Parents(sources, top, grown)
  {
    SameKeys(t.pred, t.depth, child, edge, t.depth[edge.parent] + 1);
    assert HasParent(sources, grown, child);
    forall g | g in grown.pred && g != top
      ensures HasParent(sources, grown, g)
    {
      if g != child {
        assert HasParent(sources, t, g);
        ParentIsKept(sources, t, edge, child, g, grown);
      }
    }
  }

  lemma SameKeys(pred: Predecessors, depth: map<File, nat>, child: File, edge: Edge, deep: nat)
    requires pred.Keys == depth.Keys
    ensures pred[child := Some(edge)].Keys == depth[child := deep].Keys
  {
  }

  lemma ParentIsKept(sources: Sources, t: Discovered, edge: Edge, child: File, g: File, grown: Discovered)
    requires HasParent(sources, t, g) && child !in t.pred && grown == Grown(t, edge, child)
    ensures HasParent(sources, grown, g)
  {
  }

  // ---- how a search comes about ----

  /** The steps of a search: from the board top alone, by moving on to the next file of the order, and by meeting a file
      that the scanned one imports. */
  datatype Trace = Start | Moved(before: Trace) | Met(before: Trace, edge: Edge, child: File)

  function TreeOf(top: File, trace: Trace): Discovered {
    match trace
    case Start => Discovered([top], map[top := None], map[top := 0], 0)
    case Moved(before) => var t := TreeOf(top, before); t.(at := t.at + 1)
    case Met(before, edge, child) => Grown(TreeOf(top, before), edge, child)
  }

  ghost predicate Legal(sources: Sources, top: File, trace: Trace) {
    match trace
    case Start => top in sources
    case Moved(before) => Legal(sources, top, before) && TreeOf(top, before).at < |TreeOf(top, before).order|
    case Met(before, edge, child) =>
      Legal(sources, top, before) && FreshImport(sources, TreeOf(top, before), edge, child)
  }

  /** Every step keeps the search tree. */
  lemma {:induction false} LegalIsTree(sources: Sources, top: File, trace: Trace)
    requires Legal(sources, top, trace)
    ensures SearchTree(sources, top, TreeOf(top, trace))
  {
    match trace
    case Start =>
    case Moved(before) =>
      LegalIsTree(sources, top, before);
      ParentsAreKept(sources, top, TreeOf(top, before), TreeOf(top, trace));
    case Met(before, edge, child) =>
      LegalIsTree(sources, top, before);
      var t := TreeOf(top, before);
      assert edge.parent in t.order;
      EnqueueKeepsLayers(top, t, edge, child, TreeOf(top, trace));
      EnqueueKeepsParents(sources, top, t, edge, child, TreeOf(top, trace));
  }

  lemma ParentsAreKept(sources: Sources, top: File, t: Discovered, next: Discovered)
    requires Parents(sources, top, t) && next.pred == t.pred && next.depth == t.depth
    ensures Parents(sources, top, next)
  {
    forall f | f in next.pred && f != top
      ensures HasParent(sources, next, f)
    {
      assert HasParent(sources, t, f);
    }
  }

  /** Meeting a file adds it at the end of the order and near the scanned one. */
  lemma GrownExtends(t: Discovered, edge: Edge, child: File, grown: Discovered)
    requires t.at < |t.order| && edge.parent in t.depth && child !in t.depth && grown == Grown(t, edge, child)
    ensures Extends(grown, t) && edge.parent in grown.depth && Near(grown.depth, edge.parent, child)
    ensures grown.at < |grown.order| && grown.order[grown.at] == t.order[t.at]
    ensures grown.order[t.at + 1..] == t.order[t.at + 1..] + [child]
    ensures grown.pred == t.pred[child := Some(edge)] && grown.pred.Keys == t.pred.Keys + {child}
  {
  }

  /** A sequence without repetitions inside a map is no longer than the map. */
  lemma {:induction false} DistinctBound(order: seq<File>, sources: Sources)
    requires forall i, j :: 0 <= i < j < |order| ==> order[i] != order[j]
    requires forall i :: 0 <= i < |order| ==> order[i] in sources
    ensures |order| <= |sources|
  {
    var members := set f | f in order;
    DistinctSize(order);
    assert members <= sources.Keys;
    SubsetSize(members, sources.Keys);
  }

  lemma {:induction false} DistinctSize(order: seq<File>)
    requires forall i, j :: 0 <= i < j < |order| ==> order[i] != order[j]
    ensures |set f | f in order| == |order|
    decreases |order|
  {
    if order != [] {
      var front, last := order[..|order| - 1], order[|order| - 1];
      DistinctSize(front);
      assert (set f | f in order) == (set f | f in front) + {last};
    }
  }

  lemma {:induction false} SubsetSize<T>(a: set<T>, b: set<T>)
    requires a <= b
    ensures |a| <= |b|
    decreases a
  {
    if a != {} {
      var x :| x in a;
      SubsetSize(a - {x}, b - {x});
    }
  }

  // ---- what one statement adds ----

  lemma ChainPrepends(sources: Sources, step: Step, target: File, steps: seq<Step>)
    requires IsChain(sources, step.child, target, steps)
    requires ImportsVia(sources, step.parent, step.importPath, step.child)
    ensures IsChain(sources, step.parent, target, [step] + steps)
  {
  }

  /** The first m paths of a statement have been followed. */
  ghost predicate PathsDone(sources: Sources, depth: map<File, nat>, f: File, k: int, m: int) {
    f in depth &&
    forall i, path, child :: i < m && ImportsAt(sources, f, k, i, path, child) ==> Near(depth, f, child)
  }

  lemma OneMorePathDone(
    sources: Sources, later: Discovered, earlier: Discovered, f: File, k: int, m: int, path: Path, file: Option<File>)
    requires Extends(later, earlier) && PathsDone(sources, earlier.depth, f, k, m)
    requires IsPathOf(sources, f, k, m, path) && Resolve(sources, path) == file
    requires file.Some? ==> Near(later.depth, f, file.value)
    ensures PathsDone(sources, later.depth, f, k, m + 1)
  {
    forall i, path', child | i < m + 1 && ImportsAt(sources, f, k, i, path', child)
      ensures Near(later.depth, f, child)
    {
      if i < m {
        assert Near(earlier.depth, f, child);
      }
    }
  }

  /** The file being scanned is a found one, and so near itself; so is any other found file. */
  lemma ScannedIsFound(sources: Sources, top: File, trace: Trace, file: Option<File>)
    requires Legal(sources, top, trace) && TreeOf(top, trace).at < |TreeOf(top, trace).order|
    requires var t := TreeOf(top, trace); file.Some? ==> file.value == t.order[t.at] || file.value in t.pred
    ensures var t := TreeOf(top, trace);
            && t.order[t.at] in t.depth && t.order[t.at] in t.pred && t.order[t.at] in sources
            && t.pred.Keys == t.depth.Keys
            && (file.Some? ==> Near(t.depth, t.order[t.at], file.value))
  {
    LegalIsTree(sources, top, trace);
    assert TreeOf(top, trace).order[TreeOf(top, trace).at] in TreeOf(top, trace).order;
  }

  /** The first n statements of a file are done and parse. */
  ghost predicate StatementsDone(sources: Sources, depth: map<File, nat>, f: File, n: int) {
    f in sources && n <= |sources[f]| &&
    forall k :: 0 <= k < n ==> StatementDone(sources, depth, f, k) && !MalformedAt(sources, f, k)
  }

  lemma OneMoreStatementDone(sources: Sources, later: Discovered, earlier: Discovered, f: File, n: int)
    requires Extends(later, earlier) && StatementsDone(sources, earlier.depth, f, n) && 0 <= n < |sources[f]|
    requires StatementDone(sources, later.depth, f, n) && !MalformedAt(sources, f, n)
    ensures StatementsDone(sources, later.depth, f, n + 1)
  {
    forall k | 0 <= k < n + 1
      ensures StatementDone(sources, later.depth, f, k)
    {
      if k < n {
        StatementStaysDone(sources, later, earlier, f, k);
      }
    }
  }

  lemma OneMoreOffense(
    sources: Sources, top: File, depth: map<File, nat>, offenses: seq<Offense>, o: Offense)
    requires Explained(sources, top, depth, offenses)
    requires o.file in depth && |o.reachability| == depth[o.file] && IsChain(sources, top, o.file, o.reachability)
    ensures Explained(sources, top, depth, offenses + [o])
    ensures Locations(offenses + [o]) == Locations(offenses) + [(o.file, o.line, o.spec)]
  {
    assert (offenses + [o])[..|offenses|] == offenses;
  }

  function SimUseOf(file: File, use: Use): seq<(File, nat, string)> {
    if IsSim(use.spec) then [(file, use.line, use.spec)] else []
  }

  lemma SimUsesGrow(file: File, uses: seq<Use>, k: nat, earlier: seq<(File, nat, string)>)
    requires k < |uses|
    ensures earlier + SimUses(file, uses[..k]) + SimUseOf(file, uses[k]) == earlier + SimUses(file, uses[..k + 1])
  {
    assert uses[..k + 1][..k] == uses[..k];
  }

  // ---- what the search has found ----

  /** Everything in the search tree is reachable. */
  lemma {:induction false} FoundIsReachable(sources: Sources, top: File, t: Discovered, f: File)
    requires SearchTree(sources, top, t) && f in t.pred
    ensures Reachable(sources, top, f)
    decreases t.depth[f]
  {
    if f == top {
      assert IsImportPath(sources, top, top, [top]);
    } else {
      assert HasParent(sources, t, f);
      var e := t.pred[f].value;
      FoundIsReachable(sources, top, t, e.parent);
      var files :| IsImportPath(sources, top, e.parent, files);
      PathGrows(sources, top, e.parent, e.importPath, f, files);
    }
  }

  lemma ScannedIsReachable(sources: Sources, top: File, trace: Trace, f: File)
    requires Legal(sources, top, trace) && f in TreeOf(top, trace).pred
    ensures Reachable(sources, top, f)
  {
    LegalIsTree(sources, top, trace);
    FoundIsReachable(sources, top, TreeOf(top, trace), f);
  }

  lemma PathGrows(sources: Sources, top: File, parent: File, path: Path, child: File, files: seq<File>)
    requires IsImportPath(sources, top, parent, files) && ImportsVia(sources, parent, path, child)
    ensures IsImportPath(sources, top, child, files + [child])
  {
    assert Imports(sources, parent, child);
  }

  /** When every found file is scanned, any import path ends at a found file, and is at least as long as that file is
      deep. */
  lemma {:induction false} DepthIsShortest(sources: Sources, top: File, t: Discovered, f: File, files: seq<File>)
    requires SearchTree(sources, top, t) && FilesDone(sources, t.depth, t.order)
    requires IsImportPath(sources, top, f, files)
    ensures f in t.depth && t.depth[f] <= |files| - 1
    decreases |files|
  {
    if |files| > 1 {
      var last := files[|files| - 2];
      PathFront(sources, top, f, files);
      DepthIsShortest(sources, top, t, last, files[..|files| - 1]);
      assert last in t.order;
      ImportedIsNear(sources, t, last, f);
    }
  }

  lemma PathFront(sources: Sources, top: File, target: File, files: seq<File>)
    requires IsImportPath(sources, top, target, files) && |files| > 1
    ensures IsImportPath(sources, top, files[|files| - 2], files[..|files| - 1])
    ensures Imports(sources, files[|files| - 2], target)
  {
    var front := files[..|files| - 1];
    assert Imports(sources, files[|files| - 2], files[|files| - 2 + 1]);
    forall i | 0 <= i < |front| - 1
      ensures Imports(sources, front[i], front[i + 1])
    {
      assert Imports(sources, files[i], files[i + 1]);
    }
  }

  lemma ImportedIsNear(sources: Sources, t: Discovered, f: File, child: File)
    requires FilesDone(sources, t.depth, t.order) && f in t.order && Imports(sources, f, child)
    ensures f in t.depth && Near(t.depth, f, child)
  {
    var path :| ImportsVia(sources, f, path, child);
    var k, m :| ImportsAt(sources, f, k, m, path, child);
    var i :| 0 <= i < |t.order| && t.order[i] == f;
    FileDoneAt(sources, t.depth, t.order, i);
    assert StatementDone(sources, t.depth, f, k);
  }

  /** The files found when the search ends are exactly the reachable ones. */
  lemma FoundExactlyReachable(sources: Sources, top: File, t: Discovered, f: File)
    requires SearchTree(sources, top, t) && FilesDone(sources, t.depth, t.order)
    ensures f in t.order <==> Reachable(sources, top, f)
  {
    if f in t.order {
      FoundIsReachable(sources, top, t, f);
    }
    if Reachable(sources, top, f) {
      var files :| IsImportPath(sources, top, f, files);
      DepthIsShortest(sources, top, t, f, files);
    }
  }

  lemma {:induction false} NoSimUses(file: File, uses: seq<Use>)
    ensures SimUses(file, uses) != [] <==> exists k :: 0 <= k < |uses| && IsSim(uses[k].spec)
    decreases |uses|
  {
    if uses != [] {
      NoSimUses(file, uses[..|uses| - 1]);
    }
  }

  lemma {:induction false} NoSimUsesAnywhere(sources: Sources, files: seq<File>)
    ensures AllSimUses(sources, files) != [] <==> exists f :: f in files && HasSimUse(sources, f)
    decreases |files|
  {
    if files != [] {
      var front, last := files[..|files| - 1], files[|files| - 1];
      NoSimUsesAnywhere(sources, front);
      if last in sources {
        NoSimUses(last, sources[last]);
      }
      if HasSimUse(sources, last) {
        assert last in files;
      }
      if f :| f in front && HasSimUse(sources, f) {
        assert f in files;
      }
    }
  }

  predicate HasSimUse(sources: Sources, f: File) {
    f in sources && exists k :: 0 <= k < |sources[f]| && IsSim(sources[f][k].spec)
  }

  /** No import path to the offending file is shorter than the reported chain. */
  ghost predicate ShortestChains(sources: Sources, top: File, offenses: seq<Offense>) {
    forall i :: 0 <= i < |offenses| ==>
      IsChain(sources, top, offenses[i].file, offenses[i].reachability) &&
      forall files :: IsImportPath(sources, top, offenses[i].file, files) ==>
        |offenses[i].reachability| <= |files| - 1
  }

  /** Some reachable file has a followed statement that does not parse. */
  ghost predicate ReachesMalformed(sources: Sources, top: File) {
    exists f :: Reachable(sources, top, f) && HasMalformed(sources, f)
  }

  ghost predicate ReachesSim(sources: Sources, top: File) {
    exists f :: Reachable(sources, top, f) && HasSimUse(sources, f)
  }

  /** What a finished search knows. */
  lemma SearchIsComplete(sources: Sources, top: File, t: Discovered, offenses: seq<Offense>)
    requires SearchTree(sources, top, t) && FilesDone(sources, t.depth, t.order)
    requires Explained(sources, top, t.depth, offenses) && Locations(offenses) == AllSimUses(sources, t.order)
    ensures !ReachesMalformed(sources, top)
    ensures forall f :: f in t.order <==> Reachable(sources, top, f)
    ensures offenses != [] <==> ReachesSim(sources, top)
    ensures AllInSources(sources, t.order)
    ensures ShortestChains(sources, top, offenses)
  {
    forall f
      ensures f in t.order <==> Reachable(sources, top, f)
    {
      FoundExactlyReachable(sources, top, t, f);
    }
    forall f | Reachable(sources, top, f)
      ensures !HasMalformed(sources, f)
    {
      var i :| 0 <= i < |t.order| && t.order[i] == f;
      FileDoneAt(sources, t.depth, t.order, i);
    }
    OrderInSources(sources, top, t);
    NoSimUsesAnywhere(sources, t.order);
    forall i | 0 <= i < |offenses|
      ensures IsChain(sources, top, offenses[i].file, offenses[i].reachability)
      ensures forall files :: IsImportPath(sources, top, offenses[i].file, files) ==>
                |offenses[i].reachability| <= |files| - 1
    {
      ExplainedAt(sources, top, t.depth, offenses, i);
      forall files | IsImportPath(sources, top, offenses[i].file, files)
        ensures |offenses[i].reachability| <= |files| - 1
      {
        DepthIsShortest(sources, top, t, offenses[i].file, files);
      }
    }
  }

  /** One more file of the order is done and reported. */
  lemma FileScanned(sources: Sources, top: File, trace: Trace, earlier: Discovered, t: Discovered, current: File)
    requires Legal(sources, top, trace) && t == TreeOf(top, trace) && Extends(t, earlier)
    requires t.at < |earlier.order| && earlier.order[t.at] == current && current in sources
    requires FilesDone(sources, earlier.depth, earlier.order[..t.at]) && FileDone(sources, t.depth, current)
    ensures t.at < |t.order| <= |sources| && FilesDone(sources, t.depth, t.order[..t.at + 1])
    ensures AllSimUses(sources, t.order[..t.at + 1]) ==
            AllSimUses(sources, earlier.order[..t.at]) + SimUses(current, sources[current])
  {
    TreeIsFinite(sources, top, trace);
    DoneIsKept(sources, t, earlier, earlier.order[..t.at]);
    assert t.order[..t.at + 1] == earlier.order[..t.at] + [current];
    assert t.order[..t.at + 1][..t.at] == earlier.order[..t.at];
  }

  lemma TreeIsFinite(sources: Sources, top: File, trace: Trace)
    requires Legal(sources, top, trace)
    ensures |TreeOf(top, trace).order| <= |sources|
  {
    LegalIsTree(sources, top, trace);
    OrderInSources(sources, top, TreeOf(top, trace));
    DistinctBound(TreeOf(top, trace).order, sources);
  }

  lemma OrderInSources(sources: Sources, top: File, t: Discovered)
    requires SearchTree(sources, top, t)
    ensures AllInSources(sources, t.order)
  {
    forall i | 0 <= i < |t.order|
      ensures t.order[i] in sources
    {
      assert t.order[i] in t.order;
    }
  }

  predicate AllInSources(sources: Sources, order: seq<File>) {
    forall i :: 0 <= i < |order| ==> order[i] in sources
  }

  // ---- the checker ----

  /** One run of the checker: what it mutates, and the search tree this spans. */
  class Checker {
    const sources: Sources
    const top: File
    var queue: seq<File>
    var visited: set<File>
    var predecessors: Predecessors
    var offenses: seq<Offense>
    ghost var trace: Trace

    ghost function Found(): Discovered
      reads this
    {
      TreeOf(top, trace)
    }

    ghost predicate Spans()
      reads this
    {
      && Legal(sources, top, trace) && predecessors == Found().pred && visited == predecessors.Keys
      && Explained(sources, top, Found().depth, offenses)
    }

    /** Between two files: the first ones are scanned and reported, the queue holds the others. */
    ghost predicate Valid()
      reads this
    {
      var t := Found();
      && Spans() && t.at <= |t.order| && queue == t.order[t.at..] && FilesDone(sources, t.depth, t.order[..t.at])
      && Locations(offenses) == AllSimUses(sources, t.order[..t.at])
    }

    /** In the middle of a file taken from the queue. */
    ghost predicate Scanning(current: File)
      reads this
    {
      var t := Found();
      Spans() && t.at < |t.order| && t.order[t.at] == current && queue == t.order[t.at + 1..]
    }

    constructor (sources: Sources, top: File)
      ensures this.sources == sources && this.top == top && queue == [top] && offenses == []
      ensures top in sources ==> Valid()
    {
      this.sources, this.top := sources, top;
      queue, visited, predecessors, offenses, trace := [top], {top}, map[top := None], [], Start;
    }

    /** Walks the predecessors from the target back to the top, newest step last. The walk's stop at a file without a
        predecessor is never taken: only the top has none. */
    method FormatReachability(target: File) returns (steps: seq<Step>)
      requires Spans() && target in predecessors && target in Found().depth
      ensures IsChain(sources, top, target, steps) && |steps| == Found().depth[target]
    {
      LegalIsTree(sources, top, trace);
      ghost var t := Found();
      steps := [];
      var current := target;
      while current != top
        invariant current in predecessors && current in t.depth && |steps| + t.depth[current] == t.depth[target]
        invariant IsChain(sources, current, target, steps)
        decreases t.depth[current]
      {
        assert HasParent(sources, t, current);
        var edge := predecessors[current].value;
        var step := Step(edge.parent, edge.importPath, current);
        ChainPrepends(sources, step, target, steps);
        steps := [step] + steps;
        current := edge.parent;
      }
    }

    /** Enqueues a file met for the first time, with the edge that led to it. */
    method Enqueue(current: File, path: Path, line: nat, child: File)
      requires Scanning(current) && child in sources && child !in visited && ImportsVia(sources, current, path, child)
      modifies this`queue, this`visited, this`predecessors, this`trace
      ensures Scanning(current) && Extends(Found(), old(Found()))
      ensures current in Found().depth && Near(Found().depth, current, child)
    {
      var edge := Edge(current, path, line);
      ghost var next := Met(trace, edge, child);
      ScannedIsFound(sources, top, trace, None);
      GrownExtends(Found(), edge, child, TreeOf(top, next));
      ExplainedIsKept(sources, top, TreeOf(top, next), Found(), offenses);
      visited := visited + {child};
      predecessors := predecessors[child := Some(edge)];
      queue := queue + [child];
      trace := next;
    }

    /** Follows path m of statement k: the file it resolves to is enqueued if it is met for the first time. */
    method FollowPath(current: File, k: nat, m: nat, path: Path)
      requires Scanning(current) && IsPathOf(sources, current, k, m, path)
      requires PathsDone(sources, Found().depth, current, k, m)
      modifies this`queue, this`visited, this`predecessors, this`trace
      ensures Scanning(current) && Extends(Found(), old(Found()))
      ensures PathsDone(sources, Found().depth, current, k, m + 1)
    {
      ghost var before := Found();
      var resolved := ResolveImportFile(sources, path);
      if resolved == None || resolved.value == current || resolved.value in visited {
        ScannedIsFound(sources, top, trace, resolved);
      } else {
        ResolvedFileExists(sources, path[1..]);
        assert ImportsAt(sources, current, k, m, path, resolved.value);
        Enqueue(current, path, sources[current][k].line, resolved.value);
      }
      OneMorePathDone(sources, Found(), before, current, k, m, path, resolved);
    }

    /** Follows one statement path by path. */
    method FollowStatement(current: File, k: nat, paths: seq<Path>)
      requires Scanning(current) && current in sources && k < |sources[current]|
      requires IsFollowed(sources[current][k].spec) && ParseImportPaths(sources[current][k].spec) == Success(paths)
      modifies this`queue, this`visited, this`predecessors, this`trace
      ensures Scanning(current) && Extends(Found(), old(Found()))
      ensures StatementDone(sources, Found().depth, current, k)
    {
      ScannedIsFound(sources, top, trace, None);
      for m := 0 to |paths|
        invariant Scanning(current) && Extends(Found(), old(Found()))
        invariant PathsDone(sources, Found().depth, current, k, m)
      {
        FollowPath(current, k, m, paths[m]);
      }
    }

    /** Records an offending statement of the file being scanned. */
    method Report(current: File, use: Use)
      requires Scanning(current) && IsSim(use.spec)
      modifies this`offenses
      ensures Scanning(current) && Locations(offenses) == Locations(old(offenses)) + SimUseOf(current, use)
    {
      ScannedIsFound(sources, top, trace, None);
      var chain := FormatReachability(current);
      var offense := Offense(current, use.line, use.spec, chain);
      OneMoreOffense(sources, top, Found().depth, offenses, offense);
      offenses := offenses + [offense];
    }

    /** Scans one statement: an offending one is reported, any other `lib::` one is parsed and followed. */
    method ScanStatement(current: File, k: nat) returns (error: Option<ParseError>)
      requires Scanning(current) && current in sources && k < |sources[current]|
      modifies this`queue, this`visited, this`predecessors, this`offenses, this`trace
      ensures error.Some? ==> MalformedAt(sources, current, k)
      ensures error.None? ==>
                && Scanning(current) && Extends(Found(), old(Found()))
                && StatementDone(sources, Found().depth, current, k) && !MalformedAt(sources, current, k)
                && Locations(offenses) == Locations(old(offenses)) + SimUseOf(current, sources[current][k])
    {
      var use := sources[current][k];
      ScannedIsFound(sources, top, trace, None);
      if IsSim(use.spec) {
        Report(current, use);
        return None;
      }
      assert Locations(offenses) + [] == Locations(offenses);
      if IsLib(use.spec) {
        var parsed := RunParser(use.spec);
        if parsed.Failure? {
          return Some(parsed.error);
        }
        FollowStatement(current, k, parsed.value);
      }
      error := None;
    }

    /** Scans one file: reports its offending statements and follows the others. */
    method ScanFile(current: File) returns (error: Option<ParseError>)
      requires Scanning(current) && current in sources
      modifies this`queue, this`visited, this`predecessors, this`offenses, this`trace
      ensures error.Some? ==> HasMalformed(sources, current)
      ensures error.None? ==>
                && Scanning(current) && Extends(Found(), old(Found())) && FileDone(sources, Found().depth, current)
                && Locations(offenses) == Locations(old(offenses)) + SimUses(current, sources[current])
    {
      var uses := sources[current];
      for k := 0 to |uses|
        invariant Scanning(current) && Extends(Found(), old(Found()))
        invariant StatementsDone(sources, Found().depth, current, k)
        invariant Locations(offenses) == Locations(old(offenses)) + SimUses(current, uses[..k])
      {
        ghost var before := Found();
        error := ScanStatement(current, k);
        if error.Some? {
          return;
        }
        OneMoreStatementDone(sources, Found(), before, current, k);
        SimUsesGrow(current, uses, k, Locations(old(offenses)));
      }
      assert uses[..|uses|] == uses;
      error := None;
    }

    method TakeNext() returns (current: File)
      requires Valid() && queue != []
      modifies this`queue
      ensures Scanning(current) && current in sources && current in Found().pred && Found() == old(Found())
    {
      ScannedIsFound(sources, top, trace, None);
      current := queue[0];
      queue := queue[1..];
    }

    /** The file is done: the search moves on. */
    method MoveOn(current: File, ghost before: Discovered)
      requires Scanning(current) && current in sources && Extends(Found(), before) && before.at < |before.order|
      requires FilesDone(sources, before.depth, before.order[..before.at]) && FileDone(sources, Found().depth, current)
      requires Locations(offenses) ==
               AllSimUses(sources, before.order[..before.at]) + SimUses(current, sources[current])
      modifies this`trace
      ensures Valid() && Found().at == before.at + 1 && |Found().order| <= |sources|
    {
      FileScanned(sources, top, trace, before, Found(), current);
      trace := Moved(trace);
    }

    /** Takes the next file from the queue and scans it. */
    method ScanNext() returns (error: Option<ParseError>)
      requires Valid() && queue != []
      modifies this
      ensures error.Some? ==> ReachesMalformed(sources, top)
      ensures error.None? ==> Valid() && Found().at == old(Found().at) + 1 && |Found().order| <= |sources|
    {
      ghost var before := Found();
      var current := TakeNext();
      error := ScanFile(current);
      if error.Some? {
        ScannedIsReachable(sources, top, old(trace), current);
      } else {
        MoveOn(current, before);
      }
    }

    /** The queue loop: it ends with every enqueued file scanned, or at the first statement that does not parse. */
    method Search() returns (error: Option<ParseError>)
      requires Valid()
      modifies this
      ensures error.Some? ==> ReachesMalformed(sources, top)
      ensures error.None? ==> Valid() && queue == []
    {
      while queue != []
        invariant Valid()
        decreases |sources| - Found().at
      {
        error := ScanNext();
        if error.Some? {
          return;
        }
      }
      error := None;
    }
  }

  /** The checker. It fails exactly when a reachable file has a followed statement that does not parse. Otherwise it
      scans each reachable file once, in the ghost `order`, and reports every offending statement of every one of them,
      each with a shortest import path from the board top. */
  method CollectOffenses(sources: Sources, top: File)
    returns (r: Result<seq<Offense>, ParseError>, ghost order: seq<File>)
    requires top in sources
    ensures r.Failure? <==> ReachesMalformed(sources, top)
    ensures r.Success? ==> forall f :: f in order <==> Reachable(sources, top, f)
    ensures r.Success? ==> forall i, j :: 0 <= i < j < |order| ==> order[i] != order[j]
    ensures r.Success? ==> AllInSources(sources, order) && Locations(r.value) == AllSimUses(sources, order)
    ensures r.Success? ==> (r.value != [] <==> ReachesSim(sources, top))
    ensures r.Success? ==> ShortestChains(sources, top, r.value)
  {
    var checker := new Checker(sources, top);
    var error := checker.Search();
    order := checker.Found().order;
    if error.Some? {
      return Failure(error.value), order;
    }
    assert checker.Found().at == |order| && order[..|order|] == order;
    LegalIsTree(sources, top, checker.trace);
    SearchIsComplete(sources, top, checker.Found(), checker.offenses);
    r := Success(checker.offenses);
  }
}

/** The bounded loader of architecture documents and the import closures of what it loads. The file
    system is a value: what each path holds, and where each import source of a document leads. */
module Documents {
  import opened SourceGraphs
  import opened Walks
  import opened BreadthFirst
  import opened ImportCycles

  const MAX_TOTAL_BYTES: nat := 64 * 1024 * 1024
  const MAX_IMPORT_DEPTH: nat := 32
  const MAX_DOCUMENTS: nat := 4096

  type Path = string

  datatype Import = Import(moduleId: ModuleId, source: string, architectureVersion: nat, digest: string)

  /** `valid` stands for an empty list of vocabulary diagnostics; `digest` may fail to compute. */
  datatype Document = Document(
    id: ModuleId, kind: string, valid: bool, architectureVersion: nat, digest: Option<string>,
    imports: seq<Import>)

  datatype FileContents = FileContents(bytes: nat, parsed: Option<Document>)

  /** `resolve` maps an import source, read in the directory of a document or, without one, of the
      allowed root, to the canonical path inside the root; sources outside it are absent. */
  datatype Disk = Disk(files: map<Path, FileContents>, resolve: map<(Option<Path>, string), Path>)

  datatype Code =
    | RootsEmpty | PathRejected | ImportDepth | DocumentCount | ReadFailed | TotalBytes | ParseFailed
    | DocumentInvalid | WrongKind | DigestFailed | DuplicateId | ModuleUnresolved | SourceMismatch
    | VersionMismatch | DigestMismatch | ImportCycle | RootUnresolved

  // ---------- what a load means ----------

  predicate Resolves(disk: Disk, from: Option<Path>, source: string) {
    (from, source) in disk.resolve
  }

  predicate Parsed(disk: Disk, p: Path) {
    p in disk.files && disk.files[p].parsed.Some?
  }

  function DocumentAt(disk: Disk, p: Path): Document
    requires Parsed(disk, p)
  {
    disk.files[p].parsed.value
  }

  ghost predicate Imported(disk: Disk, p: Path, q: Path) {
    && Parsed(disk, p)
    && exists i :: i in DocumentAt(disk, p).imports && Resolves(disk, Some(p), i.source)
                   && q == disk.resolve[(Some(p), i.source)]
  }

  ghost function PathEdges(disk: Disk): (edges: set<(Path, Path)>)
    ensures forall p, q :: (p, q) in edges <==> Imported(disk, p, q)
  {
    set p, i | p in disk.files && Parsed(disk, p) && i in DocumentAt(disk, p).imports
               && Resolves(disk, Some(p), i.source) :: (p, disk.resolve[(Some(p), i.source)])
  }

  ghost function RootStarts(disk: Disk, roots: seq<string>): set<(Path, nat)> {
    set r | r in roots && Resolves(disk, None, r) :: (disk.resolve[(None, r)], 0)
  }

  /** Some chain of `d` imports leads from a root to the path. */
  ghost predicate Chain(disk: Disk, roots: seq<string>, p: Path, d: nat) {
    Candidate(PathEdges(disk), RootStarts(disk, roots), p, Key(d, 0))
  }

  ghost predicate Needed(disk: Disk, roots: seq<string>, p: Path) {
    exists d: nat :: Chain(disk, roots, p, d)
  }

  /** The document can be read and parsed, is valid and of the right kind, and its imports resolve. */
  ghost predicate Usable(disk: Disk, kind: string, p: Path) {
    && Parsed(disk, p)
    && var d := DocumentAt(disk, p);
       d.valid && d.kind == kind && d.digest.Some?
       && forall i :: i in d.imports ==> Resolves(disk, Some(p), i.source)
  }

  ghost function Total(sizes: map<Path, nat>): nat {
    if sizes == map[] then 0
    else var p :| p in sizes; sizes[p] + Total(sizes - {p})
  }

  ghost function Sizes(disk: Disk, paths: set<Path>): map<Path, nat> {
    map p | p in paths && p in disk.files :: disk.files[p].bytes
  }

  /** The loading stage has nothing to report exactly when the needed documents are all usable, near
      enough, few enough and small enough. */
  ghost predicate Loadable(disk: Disk, roots: seq<string>, kind: string) {
    && (forall r :: r in roots ==> Resolves(disk, None, r))
    && (forall p :: Needed(disk, roots, p) ==> Usable(disk, kind, p))
    && (forall p :: Needed(disk, roots, p) ==> exists d: nat :: d <= MAX_IMPORT_DEPTH && Chain(disk, roots, p, d))
    && var needed := set p | p in disk.files && Needed(disk, roots, p);
       |needed| <= MAX_DOCUMENTS && Total(Sizes(disk, needed)) <= MAX_TOTAL_BYTES
  }

  // ---------- sums of sizes ----------

  lemma {:induction false} TotalRemove(sizes: map<Path, nat>, p: Path)
    requires p in sizes
    ensures Total(sizes) == sizes[p] + Total(sizes - {p})
    decreases |sizes|
  {
    var q :| q in sizes && Total(sizes) == sizes[q] + Total(sizes - {q});
    if q != p {
      TotalRemove(sizes - {q}, p);
      TotalRemove(sizes - {p}, q);
      assert sizes - {q} - {p} == sizes - {p} - {q};
    }
  }

  lemma TotalAdd(disk: Disk, paths: set<Path>, p: Path)
    requires p in disk.files && p !in paths
    ensures Total(Sizes(disk, paths + {p})) == Total(Sizes(disk, paths)) + disk.files[p].bytes
  {
    var more := Sizes(disk, paths + {p});
    TotalRemove(more, p);
    assert more - {p} == Sizes(disk, paths);
  }

  lemma {:induction false} TotalMonotone(disk: Disk, part: set<Path>, whole: set<Path>)
    requires part <= whole <= disk.files.Keys
    ensures Total(Sizes(disk, part)) <= Total(Sizes(disk, whole))
    decreases whole - part
  {
    if p :| p in whole && p !in part {
      TotalAdd(disk, part, p);
      TotalMonotone(disk, part + {p}, whole);
    } else {
      assert part == whole;
    }
  }

  // ---------- loading ----------

  /** What loading one popped path contributes. */
  datatype Contribution = Contribution(
    codes: seq<Code>, document: Option<Document>, imports: seq<Path>, stop: bool, totalBytes: nat)

  /** There is nothing to report exactly when depth, count, bytes and contents allow it; then the
      document, its size and exactly its imports are contributed. */
  ghost predicate Contributes(disk: Disk, p: Path, depth: nat, kind: string, count: nat, totalBytes: nat,
                              o: Contribution)
  {
    && (o.codes == [] <==>
          depth <= MAX_IMPORT_DEPTH && count < MAX_DOCUMENTS && Usable(disk, kind, p)
          && totalBytes + disk.files[p].bytes <= MAX_TOTAL_BYTES)
    && (o.codes == [] ==>
          && Usable(disk, kind, p) && o.document == Some(DocumentAt(disk, p)) && !o.stop
          && o.totalBytes == totalBytes + disk.files[p].bytes
          && forall q :: q in o.imports <==> Imported(disk, p, q))
  }

  /** Every code names something that is wrong with the path, and only the two ceilings on the whole
      load stop it. */
  ghost predicate Explained(disk: Disk, p: Path, depth: nat, kind: string, count: nat, totalBytes: nat,
                            o: Contribution)
  {
    && (ImportDepth in o.codes <==> depth > MAX_IMPORT_DEPTH)
    && (DocumentCount in o.codes <==> depth <= MAX_IMPORT_DEPTH && count >= MAX_DOCUMENTS)
    && (TotalBytes in o.codes <==>
          depth <= MAX_IMPORT_DEPTH && count < MAX_DOCUMENTS && p in disk.files
          && totalBytes + disk.files[p].bytes > MAX_TOTAL_BYTES)
    && (o.stop <==> DocumentCount in o.codes || TotalBytes in o.codes)
    && (DocumentInvalid in o.codes ==> Parsed(disk, p) && !DocumentAt(disk, p).valid)
    && (WrongKind in o.codes ==> Parsed(disk, p) && DocumentAt(disk, p).kind != kind)
    && (PathRejected in o.codes ==>
          Parsed(disk, p) && exists i :: i in DocumentAt(disk, p).imports && !Resolves(disk, Some(p), i.source))
  }

  method ImportPaths(disk: Disk, p: Path, d: Document) returns (imports: seq<Path>, codes: seq<Code>)
    requires Parsed(disk, p) && d == DocumentAt(disk, p)
    ensures forall q :: q in imports <==> Imported(disk, p, q)
    ensures codes == [] <==> forall i :: i in d.imports ==> Resolves(disk, Some(p), i.source)
    ensures forall c :: c in codes ==> c == PathRejected
    ensures PathRejected in codes ==> exists i :: i in d.imports && !Resolves(disk, Some(p), i.source)
  {
    imports, codes := [], [];
    for k := 0 to |d.imports|
      invariant forall c :: c in codes ==> c == PathRejected
      invariant codes == [] <==> forall j :: 0 <= j < k ==> Resolves(disk, Some(p), d.imports[j].source)
      invariant forall q :: q in imports <==>
                  exists j :: 0 <= j < k && Resolves(disk, Some(p), d.imports[j].source)
                              && q == disk.resolve[(Some(p), d.imports[j].source)]
    {
      if Resolves(disk, Some(p), d.imports[k].source) {
        imports := imports + [disk.resolve[(Some(p), d.imports[k].source)]];
      } else {
        codes := codes + [PathRejected];
      }
    }
  }

  method LoadOne(disk: Disk, p: Path, depth: nat, kind: string, count: nat, totalBytes: nat)
    returns (o: Contribution)
    ensures o.document.Some? ==> Parsed(disk, p) && o.document.value == DocumentAt(disk, p)
    ensures Contributes(disk, p, depth, kind, count, totalBytes, o)
    ensures Explained(disk, p, depth, kind, count, totalBytes, o)
  {
    if depth > MAX_IMPORT_DEPTH {
      return Contribution([ImportDepth], None, [], false, totalBytes);
    }
    if count >= MAX_DOCUMENTS {
      return Contribution([DocumentCount], None, [], true, totalBytes);
    }
    if p !in disk.files {
      return Contribution([ReadFailed], None, [], false, totalBytes);
    }
    var total := totalBytes + disk.files[p].bytes;
    if total > MAX_TOTAL_BYTES {
      return Contribution([TotalBytes], None, [], true, totalBytes);
    }
    if disk.files[p].parsed.None? {
      return Contribution([ParseFailed], None, [], false, total);
    }
    var d := disk.files[p].parsed.value;
    var codes := (if d.valid then [] else [DocumentInvalid]) + (if d.kind == kind then [] else [WrongKind]);
    if d.digest.None? {
      return Contribution(codes + [DigestFailed], None, [], false, total);
    }
    var imports, rejected := ImportPaths(disk, p, d);
    hide Resolves, Imported;
    return Contribution(codes + rejected, Some(d), imports, false, total);
  }

  /** The loader's state while it has nothing to report: a breadth-first search over the imports,
      whose visited paths are the loaded ones, within all ceilings. */
  ghost predicate GoingWell(disk: Disk, roots: seq<string>, kind: string, search: Search<Path>,
                            loaded: map<Path, Document>, totalBytes: nat)
  {
    && search.edges == PathEdges(disk) && search.starts == RootStarts(disk, roots)
    && loaded.Keys == search.best.Keys
    && (forall p :: p in loaded ==> Usable(disk, kind, p) && loaded[p] == DocumentAt(disk, p)
                                    && search.best[p].depth <= MAX_IMPORT_DEPTH)
    && |loaded.Keys| <= MAX_DOCUMENTS
    && totalBytes == Total(Sizes(disk, loaded.Keys)) <= MAX_TOTAL_BYTES
  }

  lemma OneRootIndex(disk: Disk, roots: seq<string>, p: Path, key: Key)
    requires Candidate(PathEdges(disk), RootStarts(disk, roots), p, key)
    ensures key == Key(key.depth, 0) && Needed(disk, roots, p)
  {
    assert Chain(disk, roots, p, key.depth);
  }

  /** No more than the ceilings allow is ever needed by a loadable set of roots. */
  lemma WithinCeilings(disk: Disk, roots: seq<string>, kind: string, paths: set<Path>)
    requires Loadable(disk, roots, kind) && paths <= disk.files.Keys
    requires forall p :: p in paths ==> Needed(disk, roots, p)
    ensures |paths| <= MAX_DOCUMENTS && Total(Sizes(disk, paths)) <= MAX_TOTAL_BYTES
  {
    hide Total, Sizes, Needed, Usable;
    var needed := set p | p in disk.files && Needed(disk, roots, p);
    assert needed == paths + (needed - paths);
    TotalMonotone(disk, paths, needed);
  }

  lemma LoadedIsNeeded(disk: Disk, roots: seq<string>, kind: string, search: Search<Path>,
                       loaded: map<Path, Document>, totalBytes: nat, p: Path)
    requires GoingWell(disk, roots, kind, search, loaded, totalBytes) && p in loaded
    ensures p in disk.files && Needed(disk, roots, p)
    ensures exists d: nat :: d <= MAX_IMPORT_DEPTH && Chain(disk, roots, p, d)
  {
    hide Total, Sizes, PathEdges, RootStarts;
    assert Candidate(search.edges, search.starts, p, search.best[p]);
    OneRootIndex(disk, roots, p, search.best[p]);
    assert Chain(disk, roots, p, search.best[p].depth);
  }

  lemma NextIsNeeded(disk: Disk, roots: seq<string>, search: Search<Path>)
    requires search.edges == PathEdges(disk) && search.starts == RootStarts(disk, roots)
    requires search.queue != [] && search.queue[0].node !in search.best
    ensures Needed(disk, roots, search.queue[0].node)
    ensures forall d: nat :: Chain(disk, roots, search.queue[0].node, d) ==> search.queue[0].key.depth <= d
  {
    hide PathEdges, RootStarts;
    var e := search.queue[0];
    FrontIsBest(search);
    OneRootIndex(disk, roots, e.node, e.key);
    assert forall d: nat :: Chain(disk, roots, e.node, d) ==> e.key.Leq(Key(d, 0));
  }

  /** Whatever stops the next path from being loaded stops the whole load. */
  lemma NextFails(disk: Disk, roots: seq<string>, kind: string, search: Search<Path>,
                  loaded: map<Path, Document>, totalBytes: nat, o: Contribution)
    requires GoingWell(disk, roots, kind, search, loaded, totalBytes)
    requires search.queue != [] && search.queue[0].node !in loaded
    requires Contributes(disk, search.queue[0].node, search.queue[0].key.depth, kind, |loaded.Keys|, totalBytes, o)
    requires |o.codes| > 0
    ensures !Loadable(disk, roots, kind)
  {
    hide Total, Sizes, Needed, Usable, Sound, Chain, PathEdges, RootStarts;
    var p := search.queue[0].node;
    NextIsNeeded(disk, roots, search);
    if Loadable(disk, roots, kind) {
      assert Usable(disk, kind, p);
      UsableIsParsed(disk, kind, p);
      forall q | q in loaded {
        LoadedIsNeeded(disk, roots, kind, search, loaded, totalBytes, q);
      }
      WithinCeilings(disk, roots, kind, loaded.Keys + {p});
      TotalAdd(disk, loaded.Keys, p);
    }
  }

  lemma UsableIsParsed(disk: Disk, kind: string, p: Path)
    requires Usable(disk, kind, p)
    ensures Parsed(disk, p)
  {
  }

  lemma NextSucceeds(disk: Disk, roots: seq<string>, kind: string, search: Search<Path>,
                     loaded: map<Path, Document>, totalBytes: nat, p: Path, o: Contribution)
    returns (next: Search<Path>)
    requires GoingWell(disk, roots, kind, search, loaded, totalBytes)
    requires search.queue != [] && search.queue[0].node == p && p !in loaded
    requires Contributes(disk, p, search.queue[0].key.depth, kind, |loaded.Keys|, totalBytes, o) && |o.codes| == 0
    ensures o.document.Some? && !o.stop
    ensures next.queue == search.queue[1..] + Pushed(o.imports, search.queue[0].key.Next())
    ensures GoingWell(disk, roots, kind, next, loaded[p := o.document.value], o.totalBytes)
  {
    hide Total, Sizes, Sound, Imported, RootStarts;
    next := Visit(search, o.imports);
    assert loaded[p := o.document.value].Keys == loaded.Keys + {p};
    TotalAdd(disk, loaded.Keys, p);
  }

  lemma AllLoaded(disk: Disk, roots: seq<string>, kind: string, search: Search<Path>,
                  loaded: map<Path, Document>, totalBytes: nat)
    requires GoingWell(disk, roots, kind, search, loaded, totalBytes) && search.queue == []
    requires forall r :: r in roots ==> Resolves(disk, None, r)
    ensures Loadable(disk, roots, kind)
    ensures forall p :: p in loaded <==> Needed(disk, roots, p)
  {
    hide Total, Sizes, Sound, PathEdges, RootStarts, Usable, Parsed;
    Drained(search);
    forall p
      ensures p in loaded <==> Needed(disk, roots, p)
      ensures p in loaded ==> p in disk.files
      ensures p in loaded ==> exists d: nat :: d <= MAX_IMPORT_DEPTH && Chain(disk, roots, p, d)
    {
      if p in loaded {
        LoadedIsNeeded(disk, roots, kind, search, loaded, totalBytes, p);
      }
    }
    assert (set p | p in disk.files && Needed(disk, roots, p)) == loaded.Keys;
  }

  /** Loads what the roots need, breadth first, and reports every reason not to. */
  method LoadDocuments(disk: Disk, roots: seq<string>, kind: string)
    returns (loaded: map<Path, Document>, codes: seq<Code>)
    ensures codes == [] <==> Loadable(disk, roots, kind)
    ensures codes == [] ==> forall p :: p in loaded <==> Needed(disk, roots, p)
    ensures forall p :: p in loaded ==> Parsed(disk, p) && loaded[p] == DocumentAt(disk, p)
  {
    hide GoingWell, Loadable, Usable, Sound, Imported, PathEdges, RootStarts, Measures, Explained, Contributes;
    var pending: seq<(Path, nat)>; ghost var entries;
    pending, codes, entries := RootQueue(disk, roots);
    loaded := map[];
    var totalBytes := 0;
    ghost var search := StartLoading(disk, roots, kind, entries);
    if codes != [] {
      UnresolvedRoot(disk, roots, kind);
    }
    while pending != []
      invariant forall p :: p in loaded ==> Parsed(disk, p) && loaded[p] == DocumentAt(disk, p)
      invariant |codes| == 0 ==> GoingWell(disk, roots, kind, search, loaded, totalBytes)
      invariant |codes| == 0 ==> Measures(pending, search.queue)
      invariant |codes| == 0 ==> forall r :: r in roots ==> Resolves(disk, None, r)
      invariant |codes| > 0 ==> !Loadable(disk, roots, kind)
      decreases disk.files.Keys - loaded.Keys, |pending|
    {
      if |codes| == 0 {
        MeasuresFront(pending, search.queue);
      }
      var (p, depth) := pending[0];
      pending := pending[1..];
      if p in loaded {
        if |codes| == 0 {
          search := DropLoaded(disk, roots, kind, search, loaded, totalBytes);
        }
        continue;
      }
      var o := LoadOne(disk, p, depth, kind, |loaded.Keys|, totalBytes);
      if |codes| == 0 {
        search := LoadNext(disk, roots, kind, search, p, depth, pending, loaded, totalBytes, o);
      }
      assert |codes + o.codes| == |codes| + |o.codes|;
      codes := codes + o.codes;
      if o.stop {
        break;
      }
      totalBytes := o.totalBytes;
      if o.document.Some? {
        pending := pending + Paired(o.imports, depth + 1);
        assert loaded[p := o.document.value].Keys == loaded.Keys + {p};
        loaded := loaded[p := o.document.value];
      }
    }
    if codes == [] {
      MeasuresFront(pending, search.queue);
      AllLoaded(disk, roots, kind, search, loaded, totalBytes);
    }
  }

  lemma StartLoading(disk: Disk, roots: seq<string>, kind: string, entries: seq<Entry<Path>>)
    returns (search: Search<Path>)
    requires forall e :: e in entries ==> e.key == Key(0, 0)
    requires forall p :: Entry(p, Key(0, 0)) in entries <==> (p, 0) in RootStarts(disk, roots)
    ensures search.queue == entries && GoingWell(disk, roots, kind, search, map[], 0)
  {
    search := Begin(PathEdges(disk), RootStarts(disk, roots), entries);
    assert Sizes(disk, {}) == map[];
  }

  lemma UnresolvedRoot(disk: Disk, roots: seq<string>, kind: string)
    requires exists r :: r in roots && !Resolves(disk, None, r)
    ensures !Loadable(disk, roots, kind)
  {
  }

  lemma DropLoaded(disk: Disk, roots: seq<string>, kind: string, search: Search<Path>,
                   loaded: map<Path, Document>, totalBytes: nat)
    returns (next: Search<Path>)
    requires GoingWell(disk, roots, kind, search, loaded, totalBytes)
    requires search.queue != [] && search.queue[0].node in loaded
    ensures next.queue == search.queue[1..] && GoingWell(disk, roots, kind, next, loaded, totalBytes)
  {
    next := BreadthFirst.Skip(search);
  }

  /** What one contribution does to a load that has nothing to report so far; `rest` waits behind it. */
  lemma LoadNext(disk: Disk, roots: seq<string>, kind: string, search: Search<Path>, p: Path, depth: nat,
                 rest: seq<(Path, nat)>, loaded: map<Path, Document>, totalBytes: nat, o: Contribution)
    returns (next: Search<Path>)
    requires GoingWell(disk, roots, kind, search, loaded, totalBytes)
    requires search.queue != [] && search.queue[0].node == p && search.queue[0].key.depth == depth && p !in loaded
    requires Measures(rest, search.queue[1..])
    requires Contributes(disk, p, depth, kind, |loaded.Keys|, totalBytes, o)
    ensures |o.codes| > 0 ==> !Loadable(disk, roots, kind)
    ensures |o.codes| == 0 ==>
              && o.document.Some? && !o.stop
              && GoingWell(disk, roots, kind, next, loaded[p := o.document.value], o.totalBytes)
              && Measures(rest + Paired(o.imports, depth + 1), next.queue)
  {
    hide GoingWell, Measures, Usable, Loadable, Imported, Contributes, Sound, PathEdges, RootStarts;
    next := search;
    if |o.codes| == 0 {
      MeasuresMore(rest, search.queue[1..], o.imports, depth + 1, search.queue[0].key.Next());
      next := NextSucceeds(disk, roots, kind, search, loaded, totalBytes, p, o);
    } else {
      NextFails(disk, roots, kind, search, loaded, totalBytes, o);
    }
  }

  method RootQueue(disk: Disk, roots: seq<string>)
    returns (pending: seq<(Path, nat)>, codes: seq<Code>, ghost entries: seq<Entry<Path>>)
    ensures codes == [] <==> forall r :: r in roots ==> Resolves(disk, None, r)
    ensures Measures(pending, entries)
    ensures forall e :: e in entries ==> e.key == Key(0, 0)
    ensures forall p :: Entry(p, Key(0, 0)) in entries <==> (p, 0) in RootStarts(disk, roots)
  {
    pending, codes, entries := [], [], [];
    for i := 0 to |roots|
      invariant codes == [] <==> forall j :: 0 <= j < i ==> Resolves(disk, None, roots[j])
      invariant Measures(pending, entries)
      invariant forall e :: e in entries ==> e.key == Key(0, 0)
      invariant forall p :: Entry(p, Key(0, 0)) in entries <==>
                  exists j :: 0 <= j < i && Resolves(disk, None, roots[j]) && p == disk.resolve[(None, roots[j])]
    {
      if Resolves(disk, None, roots[i]) {
        pending := pending + [(disk.resolve[(None, roots[i])], 0)];
        entries := entries + [Entry(disk.resolve[(None, roots[i])], Key(0, 0))];
      } else {
        codes := codes + [PathRejected];
      }
    }
  }

  // ---------- the document set ----------

  datatype Stored = Stored(path: Path, document: Document)

  type Documents = map<ModuleId, Stored>

  datatype Result = Ok(roots: set<ModuleId>, documents: Documents) | Err(codes: seq<Code>)

  /** The import graph between document ids. */
  function ModulesOf(documents: Documents): Modules {
    map id | id in documents :: ModuleIds(documents[id].document.imports)
  }

  function ModuleIds(imports: seq<Import>): (ids: seq<ModuleId>)
    ensures |ids| == |imports| && forall k :: 0 <= k < |ids| ==> ids[k] == imports[k].moduleId
  {
    seq(|imports|, k requires 0 <= k < |imports| => imports[k].moduleId)
  }

  /** `documents` holds exactly the loaded documents, each under its id. */
  ghost predicate Indexes(documents: Documents, loaded: map<Path, Document>) {
    && (forall id :: id in documents ==>
          var s := documents[id];
          s.path in loaded && s.document == loaded[s.path] && s.document.id == id)
    && (forall p :: p in loaded ==> loaded[p].id in documents && documents[loaded[p].id].path == p)
  }

  /** An import names the id, version and digest of the very document its source leads to. */
  ghost predicate Pinned(disk: Disk, loaded: map<Path, Document>, p: Path, i: Import) {
    Resolves(disk, Some(p), i.source) &&
    var q := disk.resolve[(Some(p), i.source)];
    && q in loaded && loaded[q].id == i.moduleId
    && loaded[q].architectureVersion == i.architectureVersion && loaded[q].digest == Some(i.digest)
  }

  ghost predicate PinnedAt(disk: Disk, loaded: map<Path, Document>, p: Path)
    requires p in loaded
  {
    forall i :: i in loaded[p].imports ==> Pinned(disk, loaded, p, i)
  }

  ghost predicate AllPinned(disk: Disk, loaded: map<Path, Document>) {
    forall p :: p in loaded ==> PinnedAt(disk, loaded, p)
  }

  ghost predicate DistinctIds(loaded: map<Path, Document>) {
    forall p, q :: p in loaded && q in loaded && loaded[p].id == loaded[q].id ==> p == q
  }

  /** The import graph between the ids of loaded documents. */
  ghost function IdEdges(loaded: map<Path, Document>): set<(ModuleId, ModuleId)> {
    set p, i | p in loaded && i in loaded[p].imports :: (loaded[p].id, i.moduleId)
  }

  lemma IndexedEdges(documents: Documents, loaded: map<Path, Document>)
    requires Indexes(documents, loaded)
    ensures ImportEdges(ModulesOf(documents)) == IdEdges(loaded)
  {
    forall e | e in ImportEdges(ModulesOf(documents))
      ensures e in IdEdges(loaded)
    {
      var s := documents[e.0];
      var k :| 0 <= k < |s.document.imports| && s.document.imports[k].moduleId == e.1;
      assert s.document.imports[k] in loaded[s.path].imports;
    }
    forall p, i | p in loaded && i in loaded[p].imports
      ensures (loaded[p].id, i.moduleId) in ImportEdges(ModulesOf(documents))
    {
      var k :| 0 <= k < |loaded[p].imports| && loaded[p].imports[k] == i;
      assert ModuleIds(loaded[p].imports)[k] == i.moduleId;
    }
  }

  /** Of documents with the same id the last one stays; `kept` are the ones that do. */
  method IndexById(loaded: map<Path, Document>)
    returns (documents: Documents, codes: seq<Code>, ghost kept: map<Path, Document>)
    ensures |codes| == 0 <==> DistinctIds(loaded)
    ensures forall c :: c in codes ==> c == DuplicateId
    ensures Indexes(documents, kept) && kept.Keys <= loaded.Keys && forall p :: p in kept ==> kept[p] == loaded[p]
    ensures |codes| == 0 ==> kept == loaded
  {
    documents, codes := map[], [];
    var paths := loaded.Keys;
    while paths != {}
      invariant paths <= loaded.Keys
      invariant forall c :: c in codes ==> c == DuplicateId
      invariant forall id :: id in documents ==>
                  var s := documents[id];
                  s.path in loaded.Keys - paths && s.document == loaded[s.path] && s.document.id == id
      invariant forall p :: p in loaded.Keys - paths ==> loaded[p].id in documents
      invariant |codes| == 0 ==> forall p :: p in loaded.Keys - paths ==> documents[loaded[p].id].path == p
      invariant |codes| > 0 ==> !DistinctIds(loaded)
    {
      var p :| p in paths;
      paths := paths - {p};
      if loaded[p].id in documents {
        codes := codes + [DuplicateId];
        assert documents[loaded[p].id].path in loaded && documents[loaded[p].id].path != p;
      }
      documents := documents[loaded[p].id := Stored(p, loaded[p])];
    }
    kept := map p | p in loaded && documents[loaded[p].id].path == p :: loaded[p];
  }

  method ValidateImport(disk: Disk, documents: Documents, p: Path, i: Import, ghost loaded: map<Path, Document>)
    returns (codes: seq<Code>)
    requires Indexes(documents, loaded)
    ensures |codes| == 0 <==> Pinned(disk, loaded, p, i)
    ensures ModuleUnresolved in codes <==> forall q :: q in loaded ==> loaded[q].id != i.moduleId
    ensures ImportCycle !in codes
  {
    if i.moduleId !in documents {
      return [ModuleUnresolved];
    }
    var imported := documents[i.moduleId];
    codes := [];
    if !Resolves(disk, Some(p), i.source) || disk.resolve[(Some(p), i.source)] != imported.path {
      codes := codes + [SourceMismatch];
    }
    if i.architectureVersion != imported.document.architectureVersion {
      codes := codes + [VersionMismatch];
    }
    if Some(i.digest) != imported.document.digest {
      codes := codes + [DigestMismatch];
    }
  }

  method ValidateImports(disk: Disk, documents: Documents, ghost loaded: map<Path, Document>)
    returns (codes: seq<Code>)
    requires Indexes(documents, loaded)
    ensures |codes| == 0 <==> AllPinned(disk, loaded)
    ensures ImportCycle !in codes
  {
    codes := [];
    var ids := documents.Keys;
    while ids != {}
      invariant ids <= documents.Keys
      invariant |codes| == 0 ==> forall p :: p in loaded && loaded[p].id !in ids ==> PinnedAt(disk, loaded, p)
      invariant |codes| > 0 ==> !AllPinned(disk, loaded)
      invariant ImportCycle !in codes
    {
      var id :| id in ids;
      ids := ids - {id};
      var s := documents[id];
      for k := 0 to |s.document.imports|
        invariant |codes| == 0 ==>
                    forall p :: p in loaded && loaded[p].id !in ids && loaded[p].id != id ==> PinnedAt(disk, loaded, p)
        invariant |codes| == 0 ==> forall j :: 0 <= j < k ==> Pinned(disk, loaded, s.path, s.document.imports[j])
        invariant |codes| > 0 ==> !AllPinned(disk, loaded)
        invariant ImportCycle !in codes
      {
        var more := ValidateImport(disk, documents, s.path, s.document.imports[k], loaded);
        codes := codes + more;
      }
    }
  }

  /** The needed documents by path. */
  ghost function NeededDocuments(disk: Disk, roots: seq<string>): map<Path, Document> {
    map p | p in disk.files && Parsed(disk, p) && Needed(disk, roots, p) :: DocumentAt(disk, p)
  }

  /** What a load demands of the files: besides being loadable, the needed documents have different
      ids, pin exactly what they import, and import each other without a cycle. */
  ghost predicate Accepted(disk: Disk, roots: seq<string>, kind: string) {
    && roots != []
    && Loadable(disk, roots, kind)
    && var loaded := NeededDocuments(disk, roots);
       DistinctIds(loaded) && AllPinned(disk, loaded) && Acyclic(IdEdges(loaded))
  }

  /** Succeeds exactly on accepted files, and then holds exactly the needed documents by id. */
  method Load(disk: Disk, roots: seq<string>, kind: string) returns (r: Result)
    ensures r.Ok? <==> Accepted(disk, roots, kind)
    ensures r.Ok? ==> Indexes(r.documents, NeededDocuments(disk, roots))
    ensures roots == [] ==> r == Err([RootsEmpty])
    ensures roots != [] && Loadable(disk, roots, kind) && DistinctIds(NeededDocuments(disk, roots)) ==>
              (r.Err? && ImportCycle in r.codes <==> !Acyclic(IdEdges(NeededDocuments(disk, roots))))
    ensures r.Ok? ==> forall id :: id in r.roots <==> exists s :: s in roots && IsRootId(disk, r.documents, s, id)
  {
    hide Loadable, Needed, ModulesOf, AllPinned, Indexes, IsRootId, RootFound;
    if roots == [] {
      return Err([RootsEmpty]);
    }
    var loaded, codes := LoadDocuments(disk, roots, kind);
    if |codes| > 0 {
      return Err(codes);
    }
    assert loaded == NeededDocuments(disk, roots);
    var documents; ghost var kept;
    documents, codes, kept := IndexById(loaded);
    var more := ValidateImports(disk, documents, kept);
    var cycle := ValidateImportCyclesByVisit(ModulesOf(documents));
    IndexedEdges(documents, kept);
    var rootIds, unresolved := RootIds(disk, roots, documents);
    forall s | s in roots && Resolves(disk, None, s)
      ensures |codes| == 0 ==> RootFound(disk, documents, s)
    {
      if |codes| == 0 {
        RootIsNeeded(disk, roots, s);
        LoadedIsFound(disk, documents, loaded, s);
      }
    }
    LoadableResolves(disk, roots, kind);
    assert ImportCycle !in codes + more && ImportCycle !in unresolved;
    codes := codes + more + (if cycle.Some? then [ImportCycle] else []) + unresolved;
    if |codes| > 0 {
      return Err(codes);
    }
    return Ok(rootIds, documents);
  }

  ghost predicate RootFound(disk: Disk, documents: Documents, s: string)
    requires Resolves(disk, None, s)
  {
    exists id :: id in documents && documents[id].path == disk.resolve[(None, s)]
  }

  lemma RootIsNeeded(disk: Disk, roots: seq<string>, s: string)
    requires s in roots && Resolves(disk, None, s)
    ensures Needed(disk, roots, disk.resolve[(None, s)])
  {
    var p := disk.resolve[(None, s)];
    assert Steps(PathEdges(disk), p, p, 0) && (p, 0) in RootStarts(disk, roots);
    assert Chain(disk, roots, p, 0);
  }

  lemma LoadedIsFound(disk: Disk, documents: Documents, loaded: map<Path, Document>, s: string)
    requires Resolves(disk, None, s) && Indexes(documents, loaded) && disk.resolve[(None, s)] in loaded
    ensures RootFound(disk, documents, s)
  {
    assert loaded[disk.resolve[(None, s)]].id in documents;
  }

  lemma LoadableResolves(disk: Disk, roots: seq<string>, kind: string)
    requires Loadable(disk, roots, kind)
    ensures forall s :: s in roots ==> Resolves(disk, None, s)
  {
  }

  ghost predicate IsRootId(disk: Disk, documents: Documents, s: string, id: ModuleId) {
    Resolves(disk, None, s) && id in documents && documents[id].path == disk.resolve[(None, s)]
  }

  method FindRoot(disk: Disk, documents: Documents, s: string) returns (ids: set<ModuleId>, codes: seq<Code>)
    ensures forall id :: id in ids <==> IsRootId(disk, documents, s, id)
    ensures |codes| == 0 <==> Resolves(disk, None, s) && RootFound(disk, documents, s)
    ensures forall c :: c in codes ==> c == PathRejected || c == RootUnresolved
  {
    if !Resolves(disk, None, s) {
      return {}, [PathRejected];
    }
    ids := set id | id in documents && documents[id].path == disk.resolve[(None, s)];
    codes := if ids == {} then [RootUnresolved] else [];
    assert RootFound(disk, documents, s) <==> ids != {} by {
      if ids != {} {
        var id :| id in ids;
      }
      if id :| id in documents && documents[id].path == disk.resolve[(None, s)] {
        assert id in ids;
      }
    }
  }

  /** The ids of the roots, and a code for each root that is not among the documents. */
  method RootIds(disk: Disk, roots: seq<string>, documents: Documents)
    returns (ids: set<ModuleId>, codes: seq<Code>)
    ensures forall id :: id in ids <==> exists s :: s in roots && IsRootId(disk, documents, s, id)
    ensures |codes| == 0 <==> forall s :: s in roots ==> Resolves(disk, None, s) && RootFound(disk, documents, s)
    ensures forall c :: c in codes ==> c == PathRejected || c == RootUnresolved
  {
    hide IsRootId, RootFound;
    ids, codes := {}, [];
    for k := 0 to |roots|
      invariant forall id :: id in ids <==> exists s :: s in roots[..k] && IsRootId(disk, documents, s, id)
      invariant |codes| == 0 <==>
                forall s :: s in roots[..k] ==> Resolves(disk, None, s) && RootFound(disk, documents, s)
      invariant forall c :: c in codes ==> c == PathRejected || c == RootUnresolved
    {
      assert roots[..k + 1] == roots[..k] + [roots[k]];
      var found, more := FindRoot(disk, documents, roots[k]);
      ids, codes := ids + found, codes + more;
    }
    assert roots[..|roots|] == roots;
  }

  // ---------- import closures ----------

  /** The ids in the import closure of `root`, unless one of them is not in the set. */
  method ImportClosure(documents: Documents, root: ModuleId) returns (members: Option<set<ModuleId>>)
    ensures members.Some? <==>
            forall id :: Reaches(ImportEdges(ModulesOf(documents)), root, id) ==> id in documents
    ensures members.Some? ==>
              forall id :: id in members.value <==> Reaches(ImportEdges(ModulesOf(documents)), root, id)
  {
    ghost var edges := ImportEdges(ModulesOf(documents));
    var pending := [root];
    var visited: set<ModuleId> := {};
    ReachesSelf(edges, root);
    while pending != []
      invariant root in visited || root in pending
      invariant visited <= documents.Keys
      invariant forall id :: id in visited || id in pending ==> Reaches(edges, root, id)
      invariant forall e :: e in edges && e.0 in visited ==> e.1 in visited || e.1 in pending
      decreases documents.Keys - visited, |pending|
    {
      var id := pending[|pending| - 1];
      ghost var before := pending;
      pending := pending[..|pending| - 1];
      assert forall x :: x in before ==> x == id || x in pending;
      if id in visited {
        continue;
      }
      if id !in documents {
        return None;
      }
      visited := visited + {id};
      var imports := ModuleIds(documents[id].document.imports);
      forall x | x in imports
        ensures Reaches(edges, root, x)
      {
        var n: nat :| Steps(edges, root, id, n);
        assert (id, x) in edges;
        StepsAppend(edges, root, id, x, n);
      }
      pending := pending + imports;
    }
    forall id | Reaches(edges, root, id)
      ensures id in visited
    {
      var n: nat :| Steps(edges, root, id, n);
      ClosedHolds(edges, visited, root, id, n);
    }
    return Some(visited);
  }

  /** Listing the imports of documents in another order, or repeatedly, changes no closure. */
  lemma ClosureIgnoresOrder(a: Documents, b: Documents, root: ModuleId, id: ModuleId)
    requires a.Keys == b.Keys
    requires forall d :: d in a ==> forall m ::
               m in ModuleIds(a[d].document.imports) <==> m in ModuleIds(b[d].document.imports)
    ensures Reaches(ImportEdges(ModulesOf(a)), root, id) <==> Reaches(ImportEdges(ModulesOf(b)), root, id)
  {
    assert ImportEdges(ModulesOf(a)) == ImportEdges(ModulesOf(b));
  }

  /** The needed documents contain what they import, and imports by id are imports by path. */
  lemma EdgesAgree(disk: Disk, roots: seq<string>, p: Path, q: Path)
    requires var loaded := NeededDocuments(disk, roots); AllPinned(disk, loaded) && p in loaded
    ensures var loaded := NeededDocuments(disk, roots);
            Imported(disk, p, q) ==> q in loaded && (loaded[p].id, loaded[q].id) in IdEdges(loaded)
  {
    var loaded := NeededDocuments(disk, roots);
    if Imported(disk, p, q) {
      var i :| i in loaded[p].imports && Resolves(disk, Some(p), i.source)
               && q == disk.resolve[(Some(p), i.source)];
      assert PinnedAt(disk, loaded, p) && Pinned(disk, loaded, p, i);
    }
  }

  lemma {:induction false} PathStepsAreIdSteps(disk: Disk, roots: seq<string>, p: Path, q: Path, n: nat)
    requires var loaded := NeededDocuments(disk, roots); AllPinned(disk, loaded) && p in loaded
    requires Steps(PathEdges(disk), p, q, n)
    ensures var loaded := NeededDocuments(disk, roots);
            q in loaded && Steps(IdEdges(loaded), loaded[p].id, loaded[q].id, n)
    decreases n
  {
    if n > 0 {
      var m :| Steps(PathEdges(disk), p, m, n - 1) && (m, q) in PathEdges(disk);
      PathStepsAreIdSteps(disk, roots, p, m, n - 1);
      EdgesAgree(disk, roots, m, q);
    }
  }

  /** An import by id out of a loaded document leads, by its source, to the document with that id. */
  lemma FollowImport(disk: Disk, loaded: map<Path, Document>, r: Path, id: ModuleId) returns (q: Path)
    requires DistinctIds(loaded) && AllPinned(disk, loaded) && r in loaded
    requires Parsed(disk, r) && loaded[r] == DocumentAt(disk, r)
    requires (loaded[r].id, id) in IdEdges(loaded)
    ensures q in loaded && loaded[q].id == id && Imported(disk, r, q)
  {
    var s, i :| s in loaded && i in loaded[s].imports && loaded[s].id == loaded[r].id && i.moduleId == id;
    assert s == r && PinnedAt(disk, loaded, r) && Pinned(disk, loaded, r, i);
    q := disk.resolve[(Some(r), i.source)];
  }

  lemma {:induction false} IdStepsArePathSteps(disk: Disk, roots: seq<string>, p: Path, id: ModuleId, n: nat)
    returns (q: Path)
    requires var loaded := NeededDocuments(disk, roots);
             AllPinned(disk, loaded) && DistinctIds(loaded) && p in loaded
             && Steps(IdEdges(loaded), loaded[p].id, id, n)
    ensures var loaded := NeededDocuments(disk, roots);
            q in loaded && loaded[q].id == id && Steps(PathEdges(disk), p, q, n)
    decreases n
  {
    hide AllPinned, DistinctIds, Needed, Imported, PathEdges, IdEdges;
    var loaded := NeededDocuments(disk, roots);
    if n == 0 {
      q := p;
    } else {
      var m :| Steps(IdEdges(loaded), loaded[p].id, m, n - 1) && (m, id) in IdEdges(loaded);
      var r := IdStepsArePathSteps(disk, roots, p, m, n - 1);
      q := FollowImport(disk, loaded, r, id);
      StepsAppend(PathEdges(disk), p, r, q, n - 1);
    }
  }

  /** The import closure of an accepted document, taken over ids, is what the files import from it;
      in particular it never meets an id outside the set. */
  lemma ClosureFollowsFiles(disk: Disk, roots: seq<string>, kind: string, documents: Documents, p: Path, id: ModuleId)
    requires Accepted(disk, roots, kind)
    requires Indexes(documents, NeededDocuments(disk, roots)) && p in NeededDocuments(disk, roots)
    ensures var loaded := NeededDocuments(disk, roots);
            && (Reaches(ImportEdges(ModulesOf(documents)), loaded[p].id, id) <==>
                exists q :: q in loaded && loaded[q].id == id && Reaches(PathEdges(disk), p, q))
            && (Reaches(ImportEdges(ModulesOf(documents)), loaded[p].id, id) ==> id in documents)
  {
    hide Loadable, Needed;
    var loaded := NeededDocuments(disk, roots);
    IndexedEdges(documents, loaded);
    if Reaches(IdEdges(loaded), loaded[p].id, id) {
      var n: nat :| Steps(IdEdges(loaded), loaded[p].id, id, n);
      var q := IdStepsArePathSteps(disk, roots, p, id, n);
    }
    if q :| q in loaded && loaded[q].id == id && Reaches(PathEdges(disk), p, q) {
      var n: nat :| Steps(PathEdges(disk), p, q, n);
      PathStepsAreIdSteps(disk, roots, p, q, n);
    }
  }
}

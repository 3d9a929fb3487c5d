/** The public API baseline built from scan reports, and its comparison with another one. */
module ApiBaseline {
  import opened SourceGraphs
  import opened Texts
  import opened SymbolTrees

  const ROOT_EXPORT_PATH: string := "<root>"
  const SUPPORTING_EXPORT_PATH: string := "<supporting>"

  datatype PackageInfo = PackageInfo(name: string, version: Option<string>, publicPaths: seq<string>)

  datatype Report = Report(root: string, package: Option<PackageInfo>, symbols: seq<Symbol>)

  datatype Identity = Identity(package: string, exportPath: string, kind: SymbolKind, qualifiedName: string)

  datatype PublicSymbol = PublicSymbol(
    exportPath: string, kind: SymbolKind, qualifiedName: string, contracts: seq<string>)

  datatype Header = Header(root: string, version: Option<string>, exports: seq<string>)

  datatype Package = Package(name: string, header: Header, symbols: seq<PublicSymbol>)

  /** A baseline as it is built, or as it is read from a file; there anything may be repeated. */
  type Baseline = seq<Package>

  /** The digest of a visibility and a signature; nothing is assumed of it. */
  type Digest = (SourceVisibility, string) -> string

  // ---------- what one symbol contributes ----------

  function AfterHash(id: string): Option<string> {
    if id == [] then None else if id[0] == '#' then Some(id[1..]) else AfterHash(id[1..])
  }

  function QualifiedName(s: Symbol): string {
    if AfterHash(s.id).Some? then AfterHash(s.id).value else s.name
  }

  /** Where a scan of one report stands: the defaults of the report. */
  datatype Scan = Scan(digest: Digest, defaultPackage: string, hasInfo: bool)

  function PackageOf(s: Symbol, scan: Scan): string {
    if s.package.Some? then s.package.value else scan.defaultPackage
  }

  function ExportsOf(s: Symbol, scan: Scan, inherited: seq<string>): seq<string> {
    if s.exportPaths == [] then
      if inherited != [] then inherited
      else if s.referenced then [SUPPORTING_EXPORT_PATH]
      else if !scan.hasInfo then [ROOT_EXPORT_PATH]
      else []
    else SortedDistinct(s.exportPaths)
  }

  function IdentityOf(s: Symbol, scan: Scan, exportPath: string): Identity {
    Identity(PackageOf(s, scan), exportPath, s.kind, QualifiedName(s))
  }

  /** A fingerprint filed under an identity. */
  type Entry = (Identity, string)

  ghost function OwnEntries(s: Symbol, scan: Scan, exports: seq<string>): set<Entry> {
    set e | e in exports :: (IdentityOf(s, scan, e), scan.digest(s.visibility, s.signature))
  }

  /** Everything a symbol and the symbols below it file. */
  ghost function Entries(s: Symbol, scan: Scan, inherited: seq<string>): set<Entry>
    decreases s, 1
  {
    var exports := ExportsOf(s, scan, inherited);
    OwnEntries(s, scan, exports) + AllEntries(s.children, scan, exports)
  }

  ghost function AllEntries(symbols: seq<Symbol>, scan: Scan, inherited: seq<string>): set<Entry>
    decreases symbols, 0
  {
    if symbols == [] then {}
    else
      AllEntries(symbols[..|symbols| - 1], scan, inherited) + Entries(symbols[|symbols| - 1], scan, inherited)
  }

  ghost function Names(s: Symbol, scan: Scan): set<string>
    decreases s, 1
  {
    {PackageOf(s, scan)} + AllNames(s.children, scan)
  }

  ghost function AllNames(symbols: seq<Symbol>, scan: Scan): set<string>
    decreases symbols, 0
  {
    if symbols == [] then {} else AllNames(symbols[..|symbols| - 1], scan) + Names(symbols[|symbols| - 1], scan)
  }

  // ---------- collecting ----------

  type SymbolMaps = map<string, map<Identity, PublicSymbol>>

  /** Every symbol is filed under its identity, with the ascending list of its fingerprints. */
  ghost predicate FiledAt(p: string, id: Identity, symbol: PublicSymbol) {
    && id == Identity(p, symbol.exportPath, symbol.kind, symbol.qualifiedName)
    && Ascending(symbol.contracts) && symbol.contracts != []
  }

  ghost predicate WellFiled(maps: SymbolMaps) {
    forall p, id :: p in maps && id in maps[p] ==> FiledAt(p, id, maps[p][id])
  }

  ghost predicate IsFiled(maps: SymbolMaps, id: Identity, fingerprint: string) {
    id.package in maps && id in maps[id.package] && fingerprint in maps[id.package][id].contracts
  }

  /** The maps hold exactly these entries. */
  ghost predicate Files(maps: SymbolMaps, entries: set<Entry>) {
    && WellFiled(maps)
    && forall id, fingerprint :: (id, fingerprint) in entries <==> IsFiled(maps, id, fingerprint)
  }

  function FileEntry(maps: SymbolMaps, id: Identity, fingerprint: string): SymbolMaps
    requires id.package in maps && id in maps[id.package] ==> Ascending(maps[id.package][id].contracts)
  {
    var symbols := if id.package in maps then maps[id.package] else map[];
    var symbol :=
      if id in symbols then symbols[id].(contracts := Insert(symbols[id].contracts, fingerprint))
      else PublicSymbol(id.exportPath, id.kind, id.qualifiedName, [fingerprint]);
    maps[id.package := symbols[id := symbol]]
  }

  lemma FileOne(maps: SymbolMaps, entries: set<Entry>, id: Identity, fingerprint: string)
    requires Files(maps, entries)
    ensures Files(FileEntry(maps, id, fingerprint), entries + {(id, fingerprint)})
  {
    hide Less;
    var more := FileEntry(maps, id, fingerprint);
    assert WellFiled(more) by {
      hide Insert;
    }
    forall i, f
      ensures IsFiled(more, i, f) <==> IsFiled(maps, i, f) || (i == id && f == fingerprint)
    {
    }
  }

  ghost function Introduced(packages: map<string, Header>, names: set<string>, root: string): map<string, Header> {
    map n | n in packages.Keys + names :: if n in packages then packages[n] else Header(root, None, [])
  }

  lemma IntroducedTwice(packages: map<string, Header>, a: set<string>, b: set<string>, root: string)
    ensures Introduced(Introduced(packages, a, root), b, root) == Introduced(packages, a + b, root)
    ensures Introduced(packages, {}, root) == packages
  {
  }

  lemma OwnMore(s: Symbol, scan: Scan, exports: seq<string>, k: nat)
    requires k < |exports|
    ensures OwnEntries(s, scan, exports[..k + 1])
         == OwnEntries(s, scan, exports[..k])
            + {(IdentityOf(s, scan, exports[k]), scan.digest(s.visibility, s.signature))}
  {
    assert exports[..k + 1] == exports[..k] + [exports[k]];
    assert forall e :: e in exports[..k + 1] <==> e in exports[..k] || e == exports[k];
  }

  lemma AllMore(symbols: seq<Symbol>, scan: Scan, inherited: seq<string>, k: nat)
    requires k < |symbols|
    ensures AllEntries(symbols[..k + 1], scan, inherited)
         == AllEntries(symbols[..k], scan, inherited) + Entries(symbols[k], scan, inherited)
    ensures AllNames(symbols[..k + 1], scan) == AllNames(symbols[..k], scan) + Names(symbols[k], scan)
  {
    var more := symbols[..k + 1];
    assert more[..|more| - 1] == symbols[..k];
  }

  /** The two maps a baseline is collected in. */
  class Collector {
    var packages: map<string, Header>
    var symbolMaps: SymbolMaps
    ghost var entries: set<Entry>

    constructor ()
      ensures packages == map[] && symbolMaps == map[] && entries == {} && Files(symbolMaps, entries)
    {
      packages, symbolMaps, entries := map[], map[], {};
    }

    method Introduce(name: string, header: Header)
      modifies this`packages
      ensures packages == if name in old(packages) then old(packages) else old(packages)[name := header]
    {
      if name !in packages {
        packages := packages[name := header];
      }
    }

    /** Files what the symbol and those below it contribute, and nothing else. */
    method CollectSymbol(s: Symbol, scan: Scan, root: string, inherited: seq<string>)
      requires Files(symbolMaps, entries)
      modifies this
      ensures Files(symbolMaps, entries) && entries == old(entries) + Entries(s, scan, inherited)
      ensures packages == Introduced(old(packages), Names(s, scan), root)
      decreases s, 1
    {
      hide Files, OwnEntries, Introduced, FileEntry;
      var name := PackageOf(s, scan);
      Introduce(name, Header(root, None, []));
      assert packages == Introduced(old(packages), {name}, root) by { IntroducedOne(old(packages), name, root); }
      var exports := ExportsOf(s, scan, inherited);
      NoOwn(s, scan, exports);
      for k := 0 to |exports|
        invariant packages == Introduced(old(packages), {name}, root)
        invariant Files(symbolMaps, entries)
        invariant entries == old(entries) + OwnEntries(s, scan, exports[..k])
      {
        var id, fingerprint := IdentityOf(s, scan, exports[k]), scan.digest(s.visibility, s.signature);
        FiledAscending(symbolMaps, entries);
        FileOne(symbolMaps, entries, id, fingerprint);
        OwnMore(s, scan, exports, k);
        symbolMaps := FileEntry(symbolMaps, id, fingerprint);
        entries := entries + {(id, fingerprint)};
      }
      assert exports[..|exports|] == exports;
      CollectAll(s.children, scan, root, exports);
      IntroducedTwice(old(packages), {name}, AllNames(s.children, scan), root);
    }

    method CollectAll(symbols: seq<Symbol>, scan: Scan, root: string, inherited: seq<string>)
      requires Files(symbolMaps, entries)
      modifies this
      ensures Files(symbolMaps, entries) && entries == old(entries) + AllEntries(symbols, scan, inherited)
      ensures packages == Introduced(old(packages), AllNames(symbols, scan), root)
      decreases symbols, 0
    {
      hide Files, Introduced;
      IntroducedTwice(packages, {}, {}, root);
      for k := 0 to |symbols|
        invariant Files(symbolMaps, entries)
        invariant entries == old(entries) + AllEntries(symbols[..k], scan, inherited)
        invariant packages == Introduced(old(packages), AllNames(symbols[..k], scan), root)
      {
        AllMore(symbols, scan, inherited, k);
        CollectSymbol(symbols[k], scan, root, inherited);
        IntroducedTwice(old(packages), AllNames(symbols[..k], scan), Names(symbols[k], scan), root);
      }
      assert symbols[..|symbols|] == symbols;
    }
  }

  lemma IntroducedOne(packages: map<string, Header>, name: string, root: string)
    ensures Introduced(packages, {name}, root)
         == if name in packages then packages else packages[name := Header(root, None, [])]
  {
  }

  lemma NoOwn(s: Symbol, scan: Scan, exports: seq<string>)
    ensures OwnEntries(s, scan, exports[..0]) == {}
  {
  }

  lemma FiledAscending(maps: SymbolMaps, entries: set<Entry>)
    requires Files(maps, entries)
    ensures forall p, id :: p in maps && id in maps[p] ==> Ascending(maps[p][id].contracts)
  {
  }

  // ---------- the baseline of a list of reports ----------

  function TrimDots(path: string): string {
    if path != [] && path[0] == '.' then TrimDots(path[1..]) else path
  }

  function PublicExportPaths(info: PackageInfo): seq<string> {
    seq(|info.publicPaths|, i requires 0 <= i < |info.publicPaths| =>
      if info.publicPaths[i] == "." then info.name else info.name + TrimDots(info.publicPaths[i]))
  }

  function ScanOf(report: Report, digest: Digest): Scan {
    Scan(digest, if report.package.Some? then report.package.value.name else "public-api", report.package.Some?)
  }

  function DefaultHeader(report: Report): Header {
    match report.package
    case Some(info) => Header(report.root, info.version, PublicExportPaths(info))
    case None => Header(report.root, None, [])
  }

  ghost function ReportEntries(reports: seq<Report>, digest: Digest): set<Entry> {
    if reports == [] then {}
    else
      var last := reports[|reports| - 1];
      ReportEntries(reports[..|reports| - 1], digest) + AllEntries(last.symbols, ScanOf(last, digest), [])
  }

  /** The packages in the order of their introduction: the first header of a name stays. */
  ghost function Headers(reports: seq<Report>, digest: Digest): map<string, Header> {
    if reports == [] then map[]
    else
      var last := reports[|reports| - 1];
      var before, scan := Headers(reports[..|reports| - 1], digest), ScanOf(last, digest);
      var started :=
        if scan.defaultPackage in before then before else before[scan.defaultPackage := DefaultHeader(last)];
      Introduced(started, AllNames(last.symbols, scan), last.root)
  }

  lemma ReportsMore(reports: seq<Report>, digest: Digest, k: nat)
    requires k < |reports|
    ensures var scan, before := ScanOf(reports[k], digest), Headers(reports[..k], digest);
            && ReportEntries(reports[..k + 1], digest)
                 == ReportEntries(reports[..k], digest) + AllEntries(reports[k].symbols, scan, [])
            && Headers(reports[..k + 1], digest)
                 == Introduced(if scan.defaultPackage in before then before
                               else before[scan.defaultPackage := DefaultHeader(reports[k])],
                               AllNames(reports[k].symbols, scan), reports[k].root)
  {
    hide Introduced, AllEntries, AllNames;
    assert reports[..k + 1][..k] == reports[..k];
  }

  lemma {:induction false} EntriesNamed(s: Symbol, scan: Scan, inherited: seq<string>)
    ensures forall x :: x in Entries(s, scan, inherited) ==> x.0.package in Names(s, scan)
    decreases s, 1
  {
    AllEntriesNamed(s.children, scan, ExportsOf(s, scan, inherited));
  }

  lemma {:induction false} AllEntriesNamed(symbols: seq<Symbol>, scan: Scan, inherited: seq<string>)
    ensures forall x :: x in AllEntries(symbols, scan, inherited) ==> x.0.package in AllNames(symbols, scan)
    decreases symbols, 0
  {
    if symbols != [] {
      AllEntriesNamed(symbols[..|symbols| - 1], scan, inherited);
      EntriesNamed(symbols[|symbols| - 1], scan, inherited);
    }
  }

  lemma {:induction false} ReportEntriesNamed(reports: seq<Report>, digest: Digest)
    ensures forall x :: x in ReportEntries(reports, digest) ==> x.0.package in Headers(reports, digest)
  {
    if reports != [] {
      var last := reports[|reports| - 1];
      ReportEntriesNamed(reports[..|reports| - 1], digest);
      AllEntriesNamed(last.symbols, ScanOf(last, digest), []);
    }
  }

  function SymbolIdentity(package: string, x: PublicSymbol): Identity {
    Identity(package, x.exportPath, x.kind, x.qualifiedName)
  }

  /** A symbol of a baseline with its identity. */
  type Item = (Identity, PublicSymbol)

  /** The symbols of all packages, one after the other. */
  ghost function Items(b: Baseline): seq<Item> {
    if b == [] then []
    else var last := b[|b| - 1]; Items(b[..|b| - 1]) + ItemsOf(last.name, last.symbols)
  }

  function ItemsOf(package: string, symbols: seq<PublicSymbol>): (items: seq<Item>)
    ensures |items| == |symbols|
    ensures forall k :: 0 <= k < |items| ==> items[k] == (SymbolIdentity(package, symbols[k]), symbols[k])
  {
    seq(|symbols|, k requires 0 <= k < |symbols| => (SymbolIdentity(package, symbols[k]), symbols[k]))
  }

  ghost predicate Distinct(items: seq<Item>) {
    forall i, j :: 0 <= i < j < |items| ==> items[i].0 != items[j].0
  }

  /** No identity occurs at two places, in one package or in two. */
  ghost predicate UniqueIdentities(b: Baseline) {
    Distinct(Items(b))
  }

  ghost predicate Has(b: Baseline, id: Identity, fingerprint: string) {
    exists e :: e in Items(b) && e.0 == id && fingerprint in e.1.contracts
  }

  ghost predicate SortedContracts(b: Baseline) {
    forall e :: e in Items(b) ==> Ascending(e.1.contracts) && e.1.contracts != []
  }

  /** The baseline lists every identity once, with exactly the fingerprints filed under it. */
  ghost predicate Describes(b: Baseline, entries: set<Entry>) {
    && UniqueIdentities(b) && SortedContracts(b)
    && forall id, fingerprint :: (id, fingerprint) in entries <==> Has(b, id, fingerprint)
  }

  lemma ItemsMore(b: Baseline, p: Package)
    ensures Items(b + [p]) == Items(b) + ItemsOf(p.name, p.symbols)
  {
    assert (b + [p])[..|b|] == b;
  }

  lemma {:induction false} InItems(b: Baseline, e: Item)
    ensures e in Items(b) <==>
            exists i :: 0 <= i < |b| && e.1 in b[i].symbols && e.0 == SymbolIdentity(b[i].name, e.1)
  {
    if b != [] {
      var init, last := b[..|b| - 1], b[|b| - 1];
      InItems(init, e);
      var items := ItemsOf(last.name, last.symbols);
      if e.1 in last.symbols && e.0 == SymbolIdentity(last.name, e.1) {
        var k :| 0 <= k < |last.symbols| && last.symbols[k] == e.1;
        assert items[k] == e;
      }
      if e in items {
        var k :| 0 <= k < |items| && items[k] == e;
      }
    }
  }

  // ---------- the order in which a baseline is written ----------

  function KindRank(kind: SymbolKind): nat {
    match kind
    case Module => 0
    case Class => 1
    case Method => 2
    case Function => 3
    case Interface => 4
    case Struct => 5
    case Const => 6
    case Property => 7
    case Decorator => 8
    case Enum => 9
    case Trait => 10
    case TypeAlias => 11
  }

  /** The order of identities within a package. */
  predicate Earlier(x: PublicSymbol, y: PublicSymbol) {
    if x.exportPath != y.exportPath then Less(x.exportPath, y.exportPath)
    else if x.kind != y.kind then KindRank(x.kind) < KindRank(y.kind)
    else Less(x.qualifiedName, y.qualifiedName)
  }

  predicate SameIdentity(x: PublicSymbol, y: PublicSymbol) {
    x.exportPath == y.exportPath && x.kind == y.kind && x.qualifiedName == y.qualifiedName
  }

  lemma EarlierIsOrder(x: PublicSymbol, y: PublicSymbol, z: PublicSymbol)
    ensures SameIdentity(x, y) ==> !Earlier(x, y)
    ensures SameIdentity(x, y) || Earlier(x, y) || Earlier(y, x)
    ensures Earlier(x, y) && Earlier(y, z) ==> Earlier(x, z)
  {
    LessIsOrder(x.exportPath, y.exportPath, z.exportPath);
    LessIsOrder(x.exportPath, y.exportPath, x.exportPath);
    LessIsOrder(x.qualifiedName, y.qualifiedName, z.qualifiedName);
  }

  ghost predicate InIdentityOrder(symbols: seq<PublicSymbol>) {
    forall i, j :: 0 <= i < j < |symbols| ==> Earlier(symbols[i], symbols[j])
  }

  function PlaceSymbol(symbols: seq<PublicSymbol>, x: PublicSymbol): (r: seq<PublicSymbol>)
    requires InIdentityOrder(symbols) && forall y :: y in symbols ==> !SameIdentity(x, y)
    ensures InIdentityOrder(r) && forall y :: y in r <==> y == x || y in symbols
  {
    if symbols == [] then [x]
    else if Earlier(symbols[0], x) then
      var rest := PlaceSymbol(symbols[1..], x);
      assert forall y :: y in rest ==> Earlier(symbols[0], y);
      [symbols[0]] + rest
    else
      assert forall i :: 0 <= i < |symbols| ==> Earlier(x, symbols[i]) by {
        forall i | 0 <= i < |symbols|
          ensures Earlier(x, symbols[i])
        {
          EarlierIsOrder(x, symbols[0], symbols[i]);
        }
      }
      [x] + symbols
  }

  lemma {:induction false} OrderedIsUnique(a: seq<PublicSymbol>, b: seq<PublicSymbol>)
    requires InIdentityOrder(a) && InIdentityOrder(b) && forall x :: x in a <==> x in b
    ensures a == b
  {
    hide Earlier, SameIdentity;
    assert |a| > 0 ==> a[0] in a;
    assert |b| > 0 ==> b[0] in b;
    if a != [] {
      EarlierIsOrder(a[0], b[0], a[0]);
      SelfIdentity(a[0]);
      EarlierIsOrder(a[0], a[0], a[0]);
      assert a[0] == b[0];
      forall x
        ensures x in a[1..] <==> x in b[1..]
      {
        assert x in a <==> x == a[0] || x in a[1..];
        assert x in b <==> x == b[0] || x in b[1..];
      }
      OrderedIsUnique(a[1..], b[1..]);
    }
  }

  lemma SelfIdentity(x: PublicSymbol)
    ensures SameIdentity(x, x)
  {
  }

  method ListSymbols(symbols: map<Identity, PublicSymbol>, ghost package: string) returns (list: seq<PublicSymbol>)
    requires forall id :: id in symbols ==> FiledAt(package, id, symbols[id])
    ensures InIdentityOrder(list)
    ensures forall x :: x in list <==> exists id :: id in symbols && symbols[id] == x
  {
    hide Earlier, Less;
    list := [];
    var rest := symbols.Keys;
    while rest != {}
      invariant rest <= symbols.Keys && InIdentityOrder(list)
      invariant forall x :: x in list <==> exists id :: id in symbols.Keys - rest && symbols[id] == x
    {
      var id :| id in rest;
      rest := rest - {id};
      forall y | y in list
        ensures !SameIdentity(symbols[id], y)
      {
        var other :| other in symbols && other != id && other !in rest && symbols[other] == y;
        assert FiledAt(package, id, symbols[id]) && FiledAt(package, other, y);
      }
      list := PlaceSymbol(list, symbols[id]);
    }
  }

  function Tidied(header: Header): Header {
    header.(exports := SortedDistinct(header.exports))
  }

  function NamesIn(b: Baseline): (names: seq<string>)
    ensures |names| == |b| && forall i :: 0 <= i < |b| ==> names[i] == b[i].name
  {
    seq(|b|, i requires 0 <= i < |b| => b[i].name)
  }

  /** The written form: packages by name, symbols by identity. */
  ghost predicate Written(b: Baseline) {
    Ascending(NamesIn(b)) && forall i :: 0 <= i < |b| ==> InIdentityOrder(b[i].symbols)
  }

  /** The package holds what was collected for its name. */
  ghost predicate Holds(p: Package, packages: map<string, Header>, maps: SymbolMaps) {
    && p.name in packages && p.header == Tidied(packages[p.name])
    && forall x :: x in p.symbols <==>
         p.name in maps && exists id :: id in maps[p.name] && maps[p.name][id] == x
  }

  ghost predicate HoldsAll(b: Baseline, packages: map<string, Header>, maps: SymbolMaps) {
    && (forall n :: n in packages <==> n in NamesIn(b))
    && (forall i :: 0 <= i < |b| ==> Holds(b[i], packages, maps))
  }

  method Finish(packages: map<string, Header>, maps: SymbolMaps) returns (b: Baseline)
    requires WellFiled(maps)
    ensures Written(b) && HoldsAll(b, packages, maps)
  {
    hide Holds, InIdentityOrder, FiledAt, Less;
    var names, rest := [], packages.Keys;
    while rest != {}
      invariant rest <= packages.Keys && Ascending(names)
      invariant forall n :: n in names <==> n in packages.Keys - rest
    {
      var n :| n in rest;
      rest := rest - {n};
      names := Insert(names, n);
    }
    assert forall n :: n in names <==> n in packages;
    b := [];
    for k := 0 to |names|
      invariant |b| == k && forall i :: 0 <= i < k ==> b[i].name == names[i]
      invariant forall i :: 0 <= i < k ==> InIdentityOrder(b[i].symbols) && Holds(b[i], packages, maps)
    {
      assert names[k] in names;
      var p := FinishOne(names[k], packages, maps);
      b := b + [p];
    }
    assert NamesIn(b) == names;
  }

  method FinishOne(name: string, packages: map<string, Header>, maps: SymbolMaps) returns (p: Package)
    requires WellFiled(maps) && name in packages
    ensures p.name == name && InIdentityOrder(p.symbols) && Holds(p, packages, maps)
  {
    hide InIdentityOrder, FiledAt, Less;
    var symbols: seq<PublicSymbol> := [];
    EmptyInOrder();
    if name in maps {
      symbols := ListSymbols(maps[name], name);
    }
    return Package(name, Tidied(packages[name]), symbols);
  }

  lemma EmptyInOrder()
    ensures InIdentityOrder([])
  {
  }

  /** Nothing written in order occurs twice. */
  lemma {:induction false} WrittenIsUnique(b: Baseline)
    requires Written(b)
    ensures UniqueIdentities(b)
  {
    if b != [] {
      var init, last := b[..|b| - 1], b[|b| - 1];
      assert forall i :: 0 <= i < |init| ==> NamesIn(init)[i] == NamesIn(b)[i] && init[i] == b[i];
      WrittenIsUnique(init);
      var before, items := Items(init), ItemsOf(last.name, last.symbols);
      forall i, j | 0 <= i < |before| && 0 <= j < |items|
        ensures before[i].0 != items[j].0
      {
        InItems(init, before[i]);
        var k :| 0 <= k < |init| && before[i].0 == SymbolIdentity(init[k].name, before[i].1);
        assert Less(NamesIn(b)[k], NamesIn(b)[|b| - 1]);
        LessIsOrder(last.name, last.name, last.name);
      }
      forall i, j | 0 <= i < j < |items|
        ensures items[i].0 != items[j].0
      {
        EarlierIsOrder(last.symbols[i], last.symbols[j], last.symbols[i]);
      }
    }
  }

  lemma FinishedDescribes(b: Baseline, packages: map<string, Header>, maps: SymbolMaps, entries: set<Entry>)
    requires Written(b) && HoldsAll(b, packages, maps)
    requires Files(maps, entries) && forall x :: x in entries ==> x.0.package in packages
    ensures Describes(b, entries)
  {
    WrittenIsUnique(b);
    hide Ascending, InIdentityOrder, Tidied, Distinct, Items;
    forall e
      ensures e in Items(b) <==> e.0.package in packages && e.0.package in maps && e.0 in maps[e.0.package]
                                 && maps[e.0.package][e.0] == e.1
      ensures e in Items(b) ==> Ascending(e.1.contracts) && e.1.contracts != []
    {
      ItemIsFiled(b, packages, maps, e);
    }
    forall id, fingerprint
      ensures (id, fingerprint) in entries <==> Has(b, id, fingerprint)
    {
      if (id, fingerprint) in entries {
        assert (id, fingerprint).0.package in packages;
        assert IsFiled(maps, id, fingerprint);
        assert (id, maps[id.package][id]) in Items(b);
      }
    }
  }

  lemma ItemIsFiled(b: Baseline, packages: map<string, Header>, maps: SymbolMaps, e: Item)
    requires HoldsAll(b, packages, maps) && WellFiled(maps)
    ensures e in Items(b) <==> e.0.package in packages && e.0.package in maps && e.0 in maps[e.0.package]
                               && maps[e.0.package][e.0] == e.1
    ensures e in Items(b) ==> Ascending(e.1.contracts) && e.1.contracts != []
  {
    hide Ascending, Tidied;
    InItems(b, e);
    if e in Items(b) {
      var i :| 0 <= i < |b| && e.1 in b[i].symbols && e.0 == SymbolIdentity(b[i].name, e.1);
      var id :| id in maps[b[i].name] && maps[b[i].name][id] == e.1;
      assert FiledAt(b[i].name, id, e.1);
    }
    if e.0.package in packages && e.0.package in maps && e.0 in maps[e.0.package] && maps[e.0.package][e.0] == e.1 {
      assert FiledAt(e.0.package, e.0, e.1);
      assert e.0.package in NamesIn(b);
      var i :| 0 <= i < |b| && NamesIn(b)[i] == e.0.package;
      assert Holds(b[i], packages, maps);
    }
  }

  /** The baseline describes exactly what the reports contribute, under the headers they introduce,
      and is written in order. */
  ghost predicate IsBaselineOf(b: Baseline, reports: seq<Report>, digest: Digest) {
    && Written(b)
    && (forall n :: n in Headers(reports, digest) <==> n in NamesIn(b))
    && (forall i :: 0 <= i < |b| ==>
          b[i].name in Headers(reports, digest) && b[i].header == Tidied(Headers(reports, digest)[b[i].name]))
    && Describes(b, ReportEntries(reports, digest))
  }

  lemma FilesWell(maps: SymbolMaps, entries: set<Entry>)
    requires Files(maps, entries)
    ensures WellFiled(maps)
  {
  }

  method BaselineFromReports(reports: seq<Report>, digest: Digest) returns (b: Baseline)
    ensures IsBaselineOf(b, reports, digest)
  {
    hide Files, Introduced, Describes, Written, WellFiled;
    var collector := new Collector();
    for k := 0 to |reports|
      invariant fresh(collector)
      invariant Files(collector.symbolMaps, collector.entries)
      invariant collector.entries == ReportEntries(reports[..k], digest)
      invariant collector.packages == Headers(reports[..k], digest)
    {
      ReportsMore(reports, digest, k);
      var scan := ScanOf(reports[k], digest);
      collector.Introduce(scan.defaultPackage, DefaultHeader(reports[k]));
      collector.CollectAll(reports[k].symbols, scan, reports[k].root, []);
    }
    assert reports[..|reports|] == reports;
    ReportEntriesNamed(reports, digest);
    FilesWell(collector.symbolMaps, collector.entries);
    b := Finish(collector.packages, collector.symbolMaps);
    FinishedDescribes(b, collector.packages, collector.symbolMaps, collector.entries);
  }

  // ---------- what the order of symbols does ----------

  /** The symbols agree in what a baseline looks at; their files and their order may differ. */
  ghost predicate Alike(s: Symbol, t: Symbol)
    decreases s, 1
  {
    && s.package == t.package && s.kind == t.kind && QualifiedName(s) == QualifiedName(t)
    && s.visibility == t.visibility && s.signature == t.signature && s.referenced == t.referenced
    && (forall e :: e in s.exportPaths <==> e in t.exportPaths)
    && SameForest(s.children, t.children)
  }

  /** Every symbol of one list is like some symbol of the other, both ways. */
  ghost predicate SameForest(a: seq<Symbol>, b: seq<Symbol>)
    decreases a, 1
  {
    (forall s :: s in a ==> HasLike(s, b)) && (forall t :: t in b ==> IsLike(a, t))
  }

  ghost predicate HasLike(s: Symbol, b: seq<Symbol>)
    decreases s, 2
  {
    exists t :: t in b && Alike(s, t)
  }

  ghost predicate IsLike(a: seq<Symbol>, t: Symbol)
    decreases a, 0
  {
    exists s :: s in a && Alike(s, t)
  }

  ghost predicate SameReports(a: seq<Report>, b: seq<Report>) {
    && |a| == |b|
    && forall k :: 0 <= k < |a| ==>
         a[k].root == b[k].root && a[k].package == b[k].package && SameForest(a[k].symbols, b[k].symbols)
  }

  lemma {:induction false} AlikeItself(s: Symbol)
    ensures Alike(s, s)
    decreases s, 1
  {
    ReorderedIsSame(s.children, s.children);
  }

  /** Reordering a list is one way of keeping the forest the same. */
  lemma {:induction false} ReorderedIsSame(a: seq<Symbol>, b: seq<Symbol>)
    requires forall s :: s in a <==> s in b
    ensures SameForest(a, b)
    decreases a, 0
  {
    hide Alike;
    forall s | s in a
      ensures HasLike(s, b) && IsLike(a, s)
    {
      AlikeItself(s);
    }
  }

  lemma {:induction false} EntryOf(symbols: seq<Symbol>, scan: Scan, inherited: seq<string>, x: Entry)
    returns (s: Symbol)
    requires x in AllEntries(symbols, scan, inherited)
    ensures s in symbols && x in Entries(s, scan, inherited)
  {
    var init, last := symbols[..|symbols| - 1], symbols[|symbols| - 1];
    if x in Entries(last, scan, inherited) {
      s := last;
    } else {
      s := EntryOf(init, scan, inherited, x);
    }
  }

  lemma {:induction false} NameOf(symbols: seq<Symbol>, scan: Scan, n: string) returns (s: Symbol)
    requires n in AllNames(symbols, scan)
    ensures s in symbols && n in Names(s, scan)
  {
    var init, last := symbols[..|symbols| - 1], symbols[|symbols| - 1];
    if n in Names(last, scan) {
      s := last;
    } else {
      s := NameOf(init, scan, n);
    }
  }

  lemma {:induction false} AllContain(symbols: seq<Symbol>, scan: Scan, inherited: seq<string>, s: Symbol)
    requires s in symbols
    ensures Entries(s, scan, inherited) <= AllEntries(symbols, scan, inherited)
    ensures Names(s, scan) <= AllNames(symbols, scan)
  {
    var init, last := symbols[..|symbols| - 1], symbols[|symbols| - 1];
    if s != last {
      AllContain(init, scan, inherited, s);
    }
  }

  // ---------- which exports a symbol is public under ----------

  /** A symbol at the end, below those before it, each a child of the one before. */
  ghost predicate IsLineage(symbols: seq<Symbol>, line: seq<Symbol>) {
    && line != [] && line[0] in symbols
    && forall i, j :: 0 <= i && j == i + 1 && j < |line| ==> line[j] in line[i].children
  }

  /** The own exports of the last symbol that has any. */
  ghost function NearestExports(line: seq<Symbol>): Option<seq<string>> {
    if line == [] then None
    else
      var last := line[|line| - 1];
      if last.exportPaths != [] then Some(SortedDistinct(last.exportPaths)) else NearestExports(line[..|line| - 1])
  }

  /** The nearest exports or, where there are none, the stand-ins for supporting and for root symbols. */
  ghost function PublicPaths(line: seq<Symbol>, scan: Scan): seq<string>
    requires line != []
  {
    if NearestExports(line).Some? then NearestExports(line).value
    else if scan.hasInfo then if exists s :: s in line && s.referenced then [SUPPORTING_EXPORT_PATH] else []
    else if line[0].referenced then [SUPPORTING_EXPORT_PATH]
    else [ROOT_EXPORT_PATH]
  }

  /** What the collector hands down along the line. */
  ghost function HandedDown(line: seq<Symbol>, scan: Scan, inherited: seq<string>): seq<string> {
    if line == [] then inherited else HandedDown(line[1..], scan, ExportsOf(line[0], scan, inherited))
  }

  lemma {:induction false} HandedToLast(line: seq<Symbol>, scan: Scan, inherited: seq<string>)
    requires line != []
    ensures HandedDown(line, scan, inherited)
         == ExportsOf(line[|line| - 1], scan, HandedDown(line[..|line| - 1], scan, inherited))
  {
    hide ExportsOf;
    if |line| > 1 {
      assert line[1..][..|line| - 2] == line[..|line| - 1][1..];
      HandedToLast(line[1..], scan, ExportsOf(line[0], scan, inherited));
    }
  }

  lemma {:induction false} HandedDownIsNearest(line: seq<Symbol>, scan: Scan)
    requires line != []
    ensures HandedDown(line, scan, []) == PublicPaths(line, scan)
  {
    HandedToLast(line, scan, []);
    var init, last := line[..|line| - 1], line[|line| - 1];
    assert forall s :: s in line <==> s in init || s == last;
    if last.exportPaths != [] {
      assert last.exportPaths[0] in SortedDistinct(last.exportPaths);
    } else if |init| == 0 {
      assert init == [] && line[0] == last && last in line;
      assert NearestExports(init).None? && HandedDown(init, scan, []) == [];
    } else {
      HandedDownIsNearest(init, scan);
      if NearestExports(init).Some? {
        NearestIsNotEmpty(init);
      }
    }
  }

  lemma {:induction false} NearestIsNotEmpty(line: seq<Symbol>)
    requires NearestExports(line).Some?
    ensures NearestExports(line).value != []
  {
    var last := line[|line| - 1];
    if last.exportPaths != [] {
      assert last.exportPaths[0] in SortedDistinct(last.exportPaths);
    } else {
      NearestIsNotEmpty(line[..|line| - 1]);
    }
  }

  lemma {:induction false} LineageOf(symbols: seq<Symbol>, scan: Scan, inherited: seq<string>, x: Entry)
    returns (line: seq<Symbol>)
    requires x in AllEntries(symbols, scan, inherited)
    ensures IsLineage(symbols, line)
    ensures x in OwnEntries(line[|line| - 1], scan, HandedDown(line, scan, inherited))
    decreases symbols
  {
    hide ExportsOf, OwnEntries;
    var s := EntryOf(symbols, scan, inherited, x);
    var exports := ExportsOf(s, scan, inherited);
    if x in OwnEntries(s, scan, exports) {
      line := [s];
      assert line[1..] == [];
    } else {
      var rest := LineageOf(s.children, scan, exports, x);
      line := [s] + rest;
      assert line[1..] == rest;
    }
  }

  lemma {:induction false} LineageFiles(symbols: seq<Symbol>, scan: Scan, inherited: seq<string>, line: seq<Symbol>,
                                        x: Entry)
    requires IsLineage(symbols, line)
    requires x in OwnEntries(line[|line| - 1], scan, HandedDown(line, scan, inherited))
    ensures x in AllEntries(symbols, scan, inherited)
    decreases |line|
  {
    hide ExportsOf, OwnEntries;
    var s := line[0];
    AllContain(symbols, scan, inherited, s);
    if |line| == 1 {
      assert line[1..] == [];
    } else {
      LineageFiles(s.children, scan, ExportsOf(s, scan, inherited), line[1..], x);
    }
  }

  /** The collector files a fingerprint exactly for the symbols of the tree, each under the exports of
      the nearest symbol, itself or above it, that has any. */
  lemma FiledUnderNearest(symbols: seq<Symbol>, scan: Scan, x: Entry)
    ensures x in AllEntries(symbols, scan, []) <==>
            exists line :: IsLineage(symbols, line) && x in OwnEntries(line[|line| - 1], scan, PublicPaths(line, scan))
  {
    hide OwnEntries, IsLineage;
    if x in AllEntries(symbols, scan, []) {
      var line := LineageOf(symbols, scan, [], x);
      LineageIsNotEmpty(symbols, line);
      HandedDownIsNearest(line, scan);
    }
    forall line | IsLineage(symbols, line) && |line| > 0
                  && x in OwnEntries(line[|line| - 1], scan, PublicPaths(line, scan))
      ensures x in AllEntries(symbols, scan, [])
    {
      HandedDownIsNearest(line, scan);
      LineageFiles(symbols, scan, [], line, x);
    }
    forall line | IsLineage(symbols, line)
      ensures |line| > 0
    {
      LineageIsNotEmpty(symbols, line);
    }
  }

  lemma LineageIsNotEmpty(symbols: seq<Symbol>, line: seq<Symbol>)
    requires IsLineage(symbols, line)
    ensures |line| > 0
  {
  }

  lemma SameExports(s: Symbol, t: Symbol, scan: Scan, inherited: seq<string>)
    requires s.referenced == t.referenced && forall e :: e in s.exportPaths <==> e in t.exportPaths
    ensures ExportsOf(s, scan, inherited) == ExportsOf(t, scan, inherited)
  {
    AscendingIsUnique(SortedDistinct(s.exportPaths), SortedDistinct(t.exportPaths));
    assert |s.exportPaths| > 0 ==> s.exportPaths[0] in t.exportPaths;
    assert |t.exportPaths| > 0 ==> t.exportPaths[0] in s.exportPaths;
  }

  lemma {:induction false} AlikeContribute(s: Symbol, t: Symbol, scan: Scan, inherited: seq<string>)
    requires Alike(s, t)
    ensures Entries(s, scan, inherited) == Entries(t, scan, inherited) && Names(s, scan) == Names(t, scan)
    decreases s, 1
  {
    hide SameForest, ExportsOf, QualifiedName;
    SameExports(s, t, scan, inherited);
    SameForestContributes(s.children, t.children, scan, ExportsOf(s, scan, inherited));
  }

  lemma {:induction false} SameForestContributes(a: seq<Symbol>, b: seq<Symbol>, scan: Scan, inherited: seq<string>)
    requires SameForest(a, b)
    ensures AllEntries(a, scan, inherited) == AllEntries(b, scan, inherited) && AllNames(a, scan) == AllNames(b, scan)
    decreases a, 0
  {
    hide HasLike, IsLike, AllEntries, AllNames, Entries, Names, SameContribution, Alike;
    forall s | s in a
      ensures exists t :: t in b && SameContribution(s, t, scan, inherited)
    {
      var t := LikeOf(s, b);
      AlikeContribute(s, t, scan, inherited);
      SameBothWays(s, t, scan, inherited);
    }
    forall t | t in b
      ensures exists s :: s in a && SameContribution(t, s, scan, inherited)
    {
      var s := OriginOf(a, t);
      AlikeContribute(s, t, scan, inherited);
      SameBothWays(s, t, scan, inherited);
    }
    MatchedContribute(a, b, scan, inherited);
    MatchedContribute(b, a, scan, inherited);
  }

  lemma LikeOf(s: Symbol, b: seq<Symbol>) returns (t: Symbol)
    requires HasLike(s, b)
    ensures t in b && Alike(s, t)
  {
    t :| t in b && Alike(s, t);
  }

  lemma OriginOf(a: seq<Symbol>, t: Symbol) returns (s: Symbol)
    requires IsLike(a, t)
    ensures s in a && Alike(s, t)
  {
    s :| s in a && Alike(s, t);
  }

  lemma SameBothWays(s: Symbol, t: Symbol, scan: Scan, inherited: seq<string>)
    requires Entries(s, scan, inherited) == Entries(t, scan, inherited) && Names(s, scan) == Names(t, scan)
    ensures SameContribution(s, t, scan, inherited) && SameContribution(t, s, scan, inherited)
  {
  }

  /** What each symbol of `a` contributes, some symbol of `b` contributes too. */
  lemma MatchedContribute(a: seq<Symbol>, b: seq<Symbol>, scan: Scan, inherited: seq<string>)
    requires forall s :: s in a ==> exists t :: t in b && SameContribution(s, t, scan, inherited)
    ensures AllEntries(a, scan, inherited) <= AllEntries(b, scan, inherited) && AllNames(a, scan) <= AllNames(b, scan)
  {
    hide AllEntries, AllNames, Entries, Names;
    forall x | x in AllEntries(a, scan, inherited)
      ensures x in AllEntries(b, scan, inherited)
    {
      var s := EntryOf(a, scan, inherited, x);
      var t :| t in b && SameContribution(s, t, scan, inherited);
      AllContain(b, scan, inherited, t);
    }
    forall n | n in AllNames(a, scan)
      ensures n in AllNames(b, scan)
    {
      var s := NameOf(a, scan, n);
      var t :| t in b && SameContribution(s, t, scan, inherited);
      AllContain(b, scan, inherited, t);
    }
  }

  ghost predicate SameContribution(s: Symbol, t: Symbol, scan: Scan, inherited: seq<string>) {
    Entries(s, scan, inherited) == Entries(t, scan, inherited) && Names(s, scan) == Names(t, scan)
  }

  lemma {:induction false} SameReportsContribute(a: seq<Report>, b: seq<Report>, digest: Digest)
    requires SameReports(a, b)
    ensures ReportEntries(a, digest) == ReportEntries(b, digest) && Headers(a, digest) == Headers(b, digest)
  {
    hide SameForest, AllEntries, AllNames, Introduced;
    if a != [] {
      var k := |a| - 1;
      SameReportsContribute(a[..k], b[..k], digest);
      SameForestContributes(a[k].symbols, b[k].symbols, ScanOf(a[k], digest), []);
    }
  }

  lemma SameItems(a: Baseline, b: Baseline, entries: set<Entry>, e: Item)
    requires Describes(a, entries) && Describes(b, entries) && e in Items(a)
    ensures e in Items(b)
  {
    hide Ascending, Items;
    var first := e.1.contracts[0];
    assert Has(a, e.0, first);
    assert (e.0, first) in entries;
    assert Has(b, e.0, first);
    var d :| d in Items(b) && d.0 == e.0 && first in d.1.contracts;
    forall f
      ensures f in e.1.contracts <==> f in d.1.contracts
    {
      OneItem(a, e, f);
      OneItem(b, d, f);
      assert (e.0, f) in entries <==> Has(a, e.0, f);
    }
    AscendingIsUnique(e.1.contracts, d.1.contracts);
    IdentityFields(a, e);
    IdentityFields(b, d);
    assert d == e;
  }

  lemma OneItem(b: Baseline, e: Item, fingerprint: string)
    requires UniqueIdentities(b) && e in Items(b)
    ensures fingerprint in e.1.contracts <==> Has(b, e.0, fingerprint)
  {
    if Has(b, e.0, fingerprint) {
      var d :| d in Items(b) && d.0 == e.0 && fingerprint in d.1.contracts;
      var i :| 0 <= i < |Items(b)| && Items(b)[i] == e;
      var j :| 0 <= j < |Items(b)| && Items(b)[j] == d;
      assert i == j;
    }
  }

  lemma IdentityFields(b: Baseline, e: Item)
    requires e in Items(b)
    ensures e.0 == SymbolIdentity(e.0.package, e.1)
  {
    InItems(b, e);
  }

  /** Reordering symbols, at any level, or moving them to other files, gives the same baseline. */
  lemma BaselineIgnoresOrder(a: seq<Report>, b: seq<Report>, digest: Digest, first: Baseline, second: Baseline)
    requires SameReports(a, b) && IsBaselineOf(first, a, digest) && IsBaselineOf(second, b, digest)
    ensures first == second
  {
    SameReportsContribute(a, b, digest);
    hide Describes, InIdentityOrder, SameReports, Headers, ReportEntries;
    AscendingIsUnique(NamesIn(first), NamesIn(second));
    forall k | 0 <= k < |first|
      ensures first[k] == second[k]
    {
      assert NamesIn(first)[k] == NamesIn(second)[k];
      forall x
        ensures x in first[k].symbols <==> x in second[k].symbols
      {
        if x in first[k].symbols {
          SymbolMoves(first, second, ReportEntries(a, digest), k, x);
        }
        if x in second[k].symbols {
          SymbolMoves(second, first, ReportEntries(a, digest), k, x);
        }
      }
      OrderedIsUnique(first[k].symbols, second[k].symbols);
    }
  }

  lemma SymbolMoves(a: Baseline, b: Baseline, entries: set<Entry>, k: nat, x: PublicSymbol)
    requires Describes(a, entries) && Describes(b, entries) && Written(b)
    requires k < |a| && |a| == |b| && a[k].name == b[k].name && x in a[k].symbols
    ensures x in b[k].symbols
  {
    var e := (SymbolIdentity(a[k].name, x), x);
    InItems(a, e);
    SameItems(a, b, entries, e);
    InItems(b, e);
    var i :| 0 <= i < |b| && e.1 in b[i].symbols && e.0 == SymbolIdentity(b[i].name, e.1);
    assert NamesIn(b)[i] == NamesIn(b)[k];
    LessIsOrder(b[k].name, b[k].name, b[k].name);
    assert i == k;
  }
}

/** Trees of declaration symbols: their keys, the order in which symbols are taken, and what can be
    seen at each place of a tree. */
module SymbolTrees {
  import opened SourceGraphs
  import opened Texts

  datatype SymbolKind =
    | Module | Class | Method | Function | Interface | Struct | Const | Property | Decorator | Enum | Trait
    | TypeAlias
  {
    function Name(): string {
      match this
      case Module => "Module"
      case Class => "Class"
      case Method => "Method"
      case Function => "Function"
      case Interface => "Interface"
      case Struct => "Struct"
      case Const => "Const"
      case Property => "Property"
      case Decorator => "Decorator"
      case Enum => "Enum"
      case Trait => "Trait"
      case TypeAlias => "TypeAlias"
    }
  }

  /** `details` stands for the fields nothing here looks at: span, callable contract and so on. */
  datatype Symbol = Symbol(
    id: string, filePath: string, package: Option<string>, kind: SymbolKind, name: string, signature: string,
    visibility: SourceVisibility, details: string, docs: Option<string>, exportPaths: seq<string>, referenced: bool,
    children: seq<Symbol>)

  type Key = string

  function KeyOf(s: Symbol): Key {
    (if s.package.Some? then s.package.value else "public-api")
    + "::" + s.kind.Name() + "#" + s.name + "::" + s.signature
  }

  // ---------- the order in which symbols are taken ----------

  predicate IsRootExport(s: Symbol) {
    s.package.Some? && s.package.value in s.exportPaths
  }

  /** Root exports first, then by file path, then by id. */
  predicate Precedes(a: Symbol, b: Symbol) {
    if IsRootExport(a) != IsRootExport(b) then IsRootExport(a)
    else if a.filePath != b.filePath then Less(a.filePath, b.filePath)
    else Less(a.id, b.id)
  }

  lemma PrecedesIsOrder(a: Symbol, b: Symbol, c: Symbol)
    ensures !Precedes(a, a)
    ensures Precedes(a, b) ==> !Precedes(b, a)
    ensures Precedes(a, b) && !Precedes(c, b) ==> Precedes(a, c)
    ensures !Precedes(b, a) && Precedes(b, c) ==> Precedes(a, c)
  {
    LessIsOrder(a.filePath, b.filePath, c.filePath);
    LessIsOrder(b.filePath, a.filePath, c.filePath);
    LessIsOrder(a.filePath, c.filePath, b.filePath);
    LessIsOrder(a.filePath, b.filePath, a.filePath);
    LessIsOrder(b.filePath, c.filePath, b.filePath);
    LessIsOrder(a.id, b.id, c.id);
    LessIsOrder(b.id, a.id, c.id);
    LessIsOrder(a.id, c.id, b.id);
    LessIsOrder(a.id, b.id, a.id);
    LessIsOrder(b.id, c.id, b.id);
  }

  ghost predicate InOrder(symbols: seq<Symbol>) {
    forall i, j :: 0 <= i < j < |symbols| ==> !Precedes(symbols[j], symbols[i])
  }

  ghost predicate DistinctKeys(symbols: seq<Symbol>) {
    symbols == [] || ((forall s :: s in symbols[1..] ==> KeyOf(s) != KeyOf(symbols[0])) && DistinctKeys(symbols[1..]))
  }

  /** Places a symbol before the first one that does not precede it. */
  function Place(symbols: seq<Symbol>, s: Symbol): (r: seq<Symbol>)
    requires InOrder(symbols)
    ensures InOrder(r) && |r| == |symbols| + 1 && forall x :: x in r <==> x == s || x in symbols
  {
    if symbols == [] then [s]
    else if Precedes(symbols[0], s) then
      var rest := Place(symbols[1..], s);
      assert forall x :: x in rest ==> !Precedes(x, symbols[0]) by {
        PrecedesIsOrder(symbols[0], s, s);
      }
      [symbols[0]] + rest
    else
      AfterHead(symbols, s);
      [s] + symbols
  }

  /** The stable sort of the symbols. */
  function Sorted(symbols: seq<Symbol>): (r: seq<Symbol>)
    ensures InOrder(r) && |r| == |symbols| && forall x :: x in r <==> x in symbols
  {
    if symbols == [] then [] else Place(Sorted(symbols[1..]), symbols[0])
  }

  lemma {:induction false} PlaceKeepsDistinct(symbols: seq<Symbol>, s: Symbol)
    requires InOrder(symbols) && DistinctKeys(symbols) && forall x :: x in symbols ==> KeyOf(x) != KeyOf(s)
    ensures DistinctKeys(Place(symbols, s))
  {
    hide Precedes, KeyOf;
    if symbols != [] {
      if Precedes(symbols[0], s) {
        PlaceKeepsDistinct(symbols[1..], s);
        assert Place(symbols, s)[1..] == Place(symbols[1..], s);
      } else {
        assert Place(symbols, s)[1..] == symbols;
      }
    }
  }

  lemma {:induction false} SortedKeepsDistinct(symbols: seq<Symbol>)
    requires DistinctKeys(symbols)
    ensures DistinctKeys(Sorted(symbols))
  {
    if symbols != [] {
      SortedKeepsDistinct(symbols[1..]);
      PlaceKeepsDistinct(Sorted(symbols[1..]), symbols[0]);
    }
  }

  function FirstWith(symbols: seq<Symbol>, key: Key): (r: Option<Symbol>)
    ensures r.Some? ==> r.value in symbols && KeyOf(r.value) == key
    ensures r.None? <==> forall s :: s in symbols ==> KeyOf(s) != key
  {
    if symbols == [] then None
    else if KeyOf(symbols[0]) == key then Some(symbols[0])
    else FirstWith(symbols[1..], key)
  }

  function FirstDocs(symbols: seq<Symbol>, key: Key): Option<string> {
    if symbols == [] then None
    else if KeyOf(symbols[0]) == key && symbols[0].docs.Some? then symbols[0].docs
    else FirstDocs(symbols[1..], key)
  }

  /** Of the symbols with this key none precedes the one at `i`, and the earlier ones follow it. */
  ghost predicate IsLeast(symbols: seq<Symbol>, key: Key, i: nat) {
    && i < |symbols| && KeyOf(symbols[i]) == key
    && forall j :: 0 <= j < |symbols| && KeyOf(symbols[j]) == key ==>
         if j < i then Precedes(symbols[i], symbols[j]) else !Precedes(symbols[j], symbols[i])
  }

  lemma {:induction false} PlaceKeepsFirst(symbols: seq<Symbol>, s: Symbol, key: Key)
    requires InOrder(symbols)
    ensures FirstWith(Place(symbols, s), key)
         == var first := FirstWith(symbols, key);
            if KeyOf(s) == key && (first.None? || !Precedes(first.value, s)) then Some(s) else first
  {
    if symbols != [] {
      if Precedes(symbols[0], s) {
        PlaceKeepsFirst(symbols[1..], s, key);
        hide KeyOf, Precedes, InOrder;
        assert Place(symbols, s)[1..] == Place(symbols[1..], s);
      } else {
        AfterHead(symbols, s);
        hide KeyOf, Precedes, InOrder;
        assert Place(symbols, s) == [s] + symbols && ([s] + symbols)[1..] == symbols;
      }
    }
  }

  /** No symbol in order precedes what the first does not. */
  lemma AfterHead(symbols: seq<Symbol>, s: Symbol)
    requires InOrder(symbols) && symbols != [] && !Precedes(symbols[0], s)
    ensures forall x :: x in symbols ==> !Precedes(x, s)
  {
    hide Precedes;
    forall i | 0 <= i < |symbols|
      ensures !Precedes(symbols[i], s)
    {
      PrecedesIsOrder(symbols[i], s, symbols[0]);
    }
  }

  /** The first symbol of a key after sorting is the least one, the earliest among equals. */
  lemma {:induction false} FirstIsLeast(symbols: seq<Symbol>, key: Key, i: nat)
    requires IsLeast(symbols, key, i)
    ensures FirstWith(Sorted(symbols), key) == Some(symbols[i])
  {
    hide KeyOf, Precedes, InOrder, IsLeast, Sorted, Place, FirstWith;
    LeastPrecedes(symbols, key, i);
    var head, tail := symbols[0], symbols[1..];
    SortedStep(symbols);
    PlaceKeepsFirst(Sorted(tail), head, key);
    if i > 0 {
      TailIsLeast(symbols, key, i);
      FirstIsLeast(tail, key, i - 1);
    }
  }

  lemma SortedStep(symbols: seq<Symbol>)
    requires symbols != []
    ensures Sorted(symbols) == Place(Sorted(symbols[1..]), symbols[0])
  {
  }

  lemma LeastPrecedes(symbols: seq<Symbol>, key: Key, i: nat)
    requires IsLeast(symbols, key, i)
    ensures i < |symbols| && KeyOf(symbols[i]) == key
    ensures if i == 0 then forall x :: x in symbols[1..] && KeyOf(x) == key ==> !Precedes(x, symbols[0])
            else KeyOf(symbols[0]) == key ==> Precedes(symbols[i], symbols[0])
  {
    hide KeyOf, Precedes;
  }

  lemma TailIsLeast(symbols: seq<Symbol>, key: Key, i: nat)
    requires IsLeast(symbols, key, i) && i > 0
    ensures IsLeast(symbols[1..], key, i - 1)
  {
    hide KeyOf, Precedes;
  }

  // ---------- what is conserved ----------

  /** What can be seen at a place of the tree. */
  datatype Fact =
    | Present
    | Exported(path: string)
    | Unreferenced
    | Documented
    | Identified(id: string, filePath: string, details: string)
    | Docs(text: string)
  {
    /** Merging loses none of these; of the others it invents none. */
    predicate Conserved() {
      !Identified? && !Docs?
    }
  }

  predicate Shows(s: Symbol, f: Fact) {
    match f
    case Present => true
    case Exported(path) => path in s.exportPaths
    case Unreferenced => !s.referenced
    case Documented => s.docs.Some?
    case Identified(id, filePath, details) => s.id == id && s.filePath == filePath && s.details == details
    case Docs(text) => s.docs == Some(text)
  }

  /** Some symbol of this key shows the fact, itself or below it along the other keys. */
  ghost predicate HoldsAt(symbols: seq<Symbol>, key: Key, below: seq<Key>, f: Fact)
    decreases |below|, 1
  {
    exists s :: s in symbols && KeyOf(s) == key && HoldsIn(s, below, f)
  }

  ghost predicate HoldsIn(s: Symbol, below: seq<Key>, f: Fact)
    decreases |below|, 0
  {
    if below == [] then Shows(s, f) else HoldsAt(s.children, below[0], below[1..], f)
  }

  predicate Kept(before: bool, after: bool, f: Fact) {
    (after ==> before) && (f.Conserved() && before ==> after)
  }

  ghost predicate Preserves(before: seq<Symbol>, after: seq<Symbol>) {
    forall key, below, f :: Kept(HoldsAt(before, key, below, f), HoldsAt(after, key, below, f), f)
  }

  /** Different keys in ascending order, at every level. */
  ghost predicate Canonical(symbols: seq<Symbol>) {
    && (forall i, j :: 0 <= i < j < |symbols| ==> Less(KeyOf(symbols[i]), KeyOf(symbols[j])))
    && (forall i :: 0 <= i < |symbols| ==> Canonical(symbols[i].children))
  }

  ghost function Height(symbols: seq<Symbol>): nat {
    if symbols == [] then 0
    else var h, t := 1 + Height(symbols[0].children), Height(symbols[1..]); if h < t then t else h
  }

  lemma {:induction false} HeightBelow(symbols: seq<Symbol>, s: Symbol)
    requires s in symbols
    ensures Height(s.children) < Height(symbols)
  {
    if s != symbols[0] {
      HeightBelow(symbols[1..], s);
    }
  }

  lemma {:induction false} HeightBounded(symbols: seq<Symbol>, h: nat)
    requires forall s :: s in symbols ==> Height(s.children) < h
    ensures Height(symbols) <= h
  {
    if symbols != [] {
      HeightBounded(symbols[1..], h);
    }
  }

  lemma HoldsMore(seen: seq<Symbol>, s: Symbol, key: Key, below: seq<Key>, f: Fact)
    ensures HoldsAt(seen + [s], key, below, f) <==>
            HoldsAt(seen, key, below, f) || (KeyOf(s) == key && HoldsIn(s, below, f))
  {
    hide KeyOf, HoldsIn;
    assert forall x :: x in seen + [s] <==> x in seen || x == s;
  }

  lemma HoldsBoth(a: seq<Symbol>, b: seq<Symbol>, key: Key, below: seq<Key>, f: Fact)
    ensures HoldsAt(a + b, key, below, f) <==> HoldsAt(a, key, below, f) || HoldsAt(b, key, below, f)
  {
    hide KeyOf, HoldsIn;
    assert forall x :: x in a + b <==> x in a || x in b;
  }

  predicate SameOrigin(m: Symbol, s: Symbol) {
    && m.id == s.id && m.filePath == s.filePath && m.package == s.package && m.kind == s.kind
    && m.name == s.name && m.signature == s.signature && m.visibility == s.visibility && m.details == s.details
  }
}

/** Which original a merged symbol stands for, at every place of a tree of symbols. */
module Representatives {
  import opened SourceGraphs
  import opened SymbolTrees

  // ---------- the symbols at a place ----------

  /** The symbol stands below the list at this path of keys. */
  ghost predicate IsAt(symbols: seq<Symbol>, key: Key, below: seq<Key>, s: Symbol)
    decreases |below|, 1
  {
    exists t :: t in symbols && KeyOf(t) == key && IsIn(t, below, s)
  }

  ghost predicate IsIn(t: Symbol, below: seq<Key>, s: Symbol)
    decreases |below|, 0
  {
    if below == [] then s == t else IsAt(t.children, below[0], below[1..], s)
  }

  lemma IsAtBoth(a: seq<Symbol>, b: seq<Symbol>, key: Key, below: seq<Key>, s: Symbol)
    ensures IsAt(a + b, key, below, s) <==> IsAt(a, key, below, s) || IsAt(b, key, below, s)
  {
    hide KeyOf, IsIn;
    assert forall x :: x in a + b <==> x in a || x in b;
  }

  lemma IsAtPart(part: seq<Symbol>, whole: seq<Symbol>, key: Key, below: seq<Key>, s: Symbol)
    requires IsAt(part, key, below, s) && forall x :: x in part ==> x in whole
    ensures IsAt(whole, key, below, s)
  {
    hide KeyOf, IsIn;
  }

  lemma DirectlyAt(symbols: seq<Symbol>, key: Key, s: Symbol)
    ensures IsAt(symbols, key, [], s) <==> s in symbols && KeyOf(s) == key
  {
    hide KeyOf;
    assert IsIn(s, [], s);
  }

  lemma OneLevelDown(symbols: seq<Symbol>, t: Symbol, key: Key, s: Symbol)
    requires t in symbols && s in t.children && KeyOf(s) == key
    ensures IsAt(symbols, KeyOf(t), [key], s)
  {
    hide KeyOf;
    DirectlyAt(t.children, key, s);
    assert [key][0] == key && [key][1..] == [];
    assert IsIn(t, [key], s);
  }

  lemma ParentOf(symbols: seq<Symbol>, key: Key, child: Key, s: Symbol) returns (t: Symbol)
    requires IsAt(symbols, key, [child], s)
    ensures t in symbols && KeyOf(t) == key && s in t.children && KeyOf(s) == child
  {
    hide KeyOf;
    t :| t in symbols && KeyOf(t) == key && IsIn(t, [child], s);
    assert [child][0] == child && [child][1..] == [];
    DirectlyAt(t.children, child, s);
  }

  lemma {:induction false} ShownAt(symbols: seq<Symbol>, key: Key, below: seq<Key>, f: Fact) returns (s: Symbol)
    requires HoldsAt(symbols, key, below, f)
    ensures IsAt(symbols, key, below, s) && Shows(s, f)
    decreases |below|
  {
    hide KeyOf, Shows;
    var t :| t in symbols && KeyOf(t) == key && HoldsIn(t, below, f);
    if below == [] {
      s := t;
    } else {
      s := ShownAt(t.children, below[0], below[1..], f);
    }
    assert IsIn(t, below, s);
  }

  lemma {:induction false} AtShows(symbols: seq<Symbol>, key: Key, below: seq<Key>, s: Symbol, f: Fact)
    requires IsAt(symbols, key, below, s) && Shows(s, f)
    ensures HoldsAt(symbols, key, below, f)
    decreases |below|
  {
    hide KeyOf, Shows;
    var t :| t in symbols && KeyOf(t) == key && IsIn(t, below, s);
    if below != [] {
      AtShows(t.children, below[0], below[1..], s, f);
    }
    assert HoldsIn(t, below, f);
  }

  // ---------- representatives ----------

  /** The symbol is at the place, and none there precedes it. */
  ghost predicate LeastAt(symbols: seq<Symbol>, key: Key, below: seq<Key>, o: Symbol) {
    IsAt(symbols, key, below, o) && forall s :: IsAt(symbols, key, below, s) ==> !Precedes(s, o)
  }

  predicate SameRank(a: Symbol, b: Symbol) {
    IsRootExport(a) == IsRootExport(b) && a.filePath == b.filePath && a.id == b.id
  }

  /** The merged symbol is this original, at its place in the order and with its documentation. */
  predicate Keeps(m: Symbol, o: Symbol) {
    SameOrigin(m, o) && IsRootExport(m) == IsRootExport(o) && (o.docs.Some? ==> m.docs == o.docs)
  }

  ghost predicate StandsFor(originals: seq<Symbol>, key: Key, below: seq<Key>, m: Symbol) {
    exists o :: LeastAt(originals, key, below, o) && Keeps(m, o)
  }

  /** At every place the merged symbol keeps an original that no other one there precedes. */
  ghost predicate Represents(originals: seq<Symbol>, merged: seq<Symbol>) {
    forall key, below, m :: IsAt(merged, key, below, m) ==> StandsFor(originals, key, below, m)
  }

  /** Merging `y` into `x` would make `x` a root export, although neither is one. That takes two
      packages of one key: an unnamed one and a named one. */
  predicate Promotes(x: Symbol, y: Symbol) {
    && !IsRootExport(x) && !IsRootExport(y) && !Precedes(y, x)
    && x.package.Some? && x.package.value in y.exportPaths
  }

  ghost predicate UnpromotedAt(symbols: seq<Symbol>, key: Key, below: seq<Key>) {
    forall x, y :: IsAt(symbols, key, below, x) && IsAt(symbols, key, below, y) ==> !Promotes(x, y)
  }

  /** At no place of the tree does merging promote anything. */
  ghost predicate Unpromoted(symbols: seq<Symbol>) {
    forall key, below :: UnpromotedAt(symbols, key, below)
  }

  /** It is enough that symbols at one place agree on their package, as they do once a package has been
      assigned to the whole report. */
  lemma OnePackageIsUnpromoted(symbols: seq<Symbol>)
    requires forall key, below, x, y ::
               IsAt(symbols, key, below, x) && IsAt(symbols, key, below, y) ==> x.package == y.package
    ensures Unpromoted(symbols)
  {
    hide IsAt, Precedes;
  }

  /** Assigns a package to symbols and to everything below them. */
  function WithPackage(symbols: seq<Symbol>, name: string): (r: seq<Symbol>)
    ensures |r| == |symbols|
    ensures forall i :: 0 <= i < |r| ==>
              r[i].package == Some(name) && r[i].children == WithPackage(symbols[i].children, name)
  {
    if symbols == [] then []
    else
      [symbols[0].(package := Some(name), children := WithPackage(symbols[0].children, name))]
      + WithPackage(symbols[1..], name)
  }

  lemma {:induction false} PackageAt(symbols: seq<Symbol>, name: string, key: Key, below: seq<Key>, s: Symbol)
    requires IsAt(WithPackage(symbols, name), key, below, s)
    ensures s.package == Some(name)
    decreases |below|
  {
    hide KeyOf;
    var all := WithPackage(symbols, name);
    var t :| t in all && KeyOf(t) == key && IsIn(t, below, s);
    var i :| 0 <= i < |all| && all[i] == t;
    if below != [] {
      PackageAt(symbols[i].children, name, below[0], below[1..], s);
    }
  }

  /** A report whose symbols were all given its package promotes nothing. */
  lemma AnnotatedIsUnpromoted(symbols: seq<Symbol>, name: string)
    ensures Unpromoted(WithPackage(symbols, name))
  {
    hide IsAt, WithPackage, Unpromoted;
    forall key, below, x, y | IsAt(WithPackage(symbols, name), key, below, x)
                              && IsAt(WithPackage(symbols, name), key, below, y)
      ensures x.package == y.package
    {
      PackageAt(symbols, name, key, below, x);
      PackageAt(symbols, name, key, below, y);
    }
    OnePackageIsUnpromoted(WithPackage(symbols, name));
  }

  /** No symbol of the tree has a package, as scanners leave it. */
  ghost predicate Unnamed(symbols: seq<Symbol>) {
    forall i :: 0 <= i < |symbols| ==> symbols[i].package.None? && Unnamed(symbols[i].children)
  }

  lemma {:induction false} UnnamedAt(symbols: seq<Symbol>, key: Key, below: seq<Key>, s: Symbol)
    requires Unnamed(symbols) && IsAt(symbols, key, below, s)
    ensures s.package.None?
    decreases |below|
  {
    hide KeyOf;
    var t :| t in symbols && KeyOf(t) == key && IsIn(t, below, s);
    var i :| 0 <= i < |symbols| && symbols[i] == t;
    if below != [] {
      UnnamedAt(symbols[i].children, below[0], below[1..], s);
    }
  }

  /** A report whose symbols were never given a package promotes nothing either. */
  lemma UnnamedIsUnpromoted(symbols: seq<Symbol>)
    requires Unnamed(symbols)
    ensures Unpromoted(symbols)
  {
    hide IsAt, Unnamed, Unpromoted;
    forall key, below, x, y | IsAt(symbols, key, below, x) && IsAt(symbols, key, below, y)
      ensures x.package == y.package
    {
      UnnamedAt(symbols, key, below, x);
      UnnamedAt(symbols, key, below, y);
    }
    OnePackageIsUnpromoted(symbols);
  }

  lemma RanksPrecede(a: Symbol, b: Symbol, c: Symbol, d: Symbol)
    requires SameRank(a, b) && SameRank(c, d)
    ensures Precedes(a, c) <==> Precedes(b, d)
  {
  }

  lemma NotPreceding(a: Symbol, b: Symbol, c: Symbol)
    requires !Precedes(a, b) && !Precedes(b, c)
    ensures !Precedes(a, c)
  {
    PrecedesIsOrder(a, c, b);
  }

  // ---------- documentation ----------

  /** Whatever precedes a documented symbol at the place is documented. */
  ghost predicate DocumentedFirstAt(symbols: seq<Symbol>, key: Key, below: seq<Key>) {
    forall s, t :: IsAt(symbols, key, below, s) && IsAt(symbols, key, below, t) && t.docs.Some? && Precedes(s, t) ==>
      s.docs.Some?
  }

  /** The merged documentation is then that of a documented original that no other documented one there
      precedes. */
  lemma DocsAreFirst(originals: seq<Symbol>, merged: seq<Symbol>, key: Key, below: seq<Key>, m: Symbol)
    returns (d: Symbol)
    requires Faithful(originals, merged) && IsAt(merged, key, below, m) && m.docs.Some?
    requires DocumentedFirstAt(originals, key, below)
    ensures IsAt(originals, key, below, d) && d.docs == m.docs
    ensures forall s :: IsAt(originals, key, below, s) && s.docs.Some? ==> !Precedes(s, d)
  {
    hide IsAt, HoldsAt, Precedes, IsRootExport;
    var o := OriginalOf(originals, merged, key, below, m);
    if o.docs.Some? {
      d := o;
    } else {
      var f := Docs(m.docs.value);
      AtShows(merged, key, below, m, f);
      assert Kept(HoldsAt(originals, key, below, f), HoldsAt(merged, key, below, f), f);
      d := ShownAt(originals, key, below, f);
      forall s | IsAt(originals, key, below, s)
        ensures !Precedes(s, d)
      {
        NotPreceding(s, o, d);
      }
    }
  }

  // ---------- merging the merged ----------

  /** A merge of the list that loses no fact and represents it. */
  ghost predicate Faithful(originals: seq<Symbol>, merged: seq<Symbol>) {
    Preserves(originals, merged) && Represents(originals, merged)
  }

  lemma OriginalOf(originals: seq<Symbol>, merged: seq<Symbol>, key: Key, below: seq<Key>, m: Symbol)
    returns (o: Symbol)
    requires Faithful(originals, merged) && IsAt(merged, key, below, m)
    ensures LeastAt(originals, key, below, o) && Keeps(m, o) && SameRank(m, o)
  {
    hide IsAt, LeastAt, IsRootExport;
    assert StandsFor(originals, key, below, m);
    o :| LeastAt(originals, key, below, o) && Keeps(m, o);
  }

  lemma ExporterOf(originals: seq<Symbol>, merged: seq<Symbol>, key: Key, below: seq<Key>, m: Symbol, path: string)
    returns (s: Symbol)
    requires Faithful(originals, merged) && IsAt(merged, key, below, m) && path in m.exportPaths
    ensures IsAt(originals, key, below, s) && path in s.exportPaths
  {
    hide IsAt, HoldsAt, Represents;
    var f := Exported(path);
    AtShows(merged, key, below, m, f);
    assert Kept(HoldsAt(originals, key, below, f), HoldsAt(merged, key, below, f), f);
    s := ShownAt(originals, key, below, f);
  }

  lemma MergedOf(originals: seq<Symbol>, merged: seq<Symbol>, key: Key, below: seq<Key>, s: Symbol)
    returns (m: Symbol)
    requires Faithful(originals, merged) && IsAt(originals, key, below, s)
    ensures IsAt(merged, key, below, m)
  {
    hide IsAt, HoldsAt, Represents;
    AtShows(originals, key, below, s, Present);
    assert Kept(HoldsAt(originals, key, below, Present), HoldsAt(merged, key, below, Present), Present);
    m := ShownAt(merged, key, below, Present);
  }

  /** Two lists, each with its merge. */
  datatype Halves = Halves(x: seq<Symbol>, e: seq<Symbol>, y: seq<Symbol>, i: seq<Symbol>) {
    ghost predicate Valid() {
      Faithful(x, e) && Faithful(y, i)
    }
  }

  lemma HalfOf(h: Halves, key: Key, below: seq<Key>, m: Symbol) returns (originals: seq<Symbol>, merged: seq<Symbol>)
    requires h.Valid() && IsAt(h.e + h.i, key, below, m)
    ensures Faithful(originals, merged) && IsAt(merged, key, below, m)
    ensures forall s :: IsAt(originals, key, below, s) ==> IsAt(h.x + h.y, key, below, s)
  {
    hide IsAt, Faithful;
    IsAtBoth(h.e, h.i, key, below, m);
    if IsAt(h.e, key, below, m) {
      originals, merged := h.x, h.e;
    } else {
      originals, merged := h.y, h.i;
    }
    forall s | IsAt(originals, key, below, s)
      ensures IsAt(h.x + h.y, key, below, s)
    {
      IsAtBoth(h.x, h.y, key, below, s);
    }
  }

  lemma PromotionIsOriginal(h: Halves, key: Key, below: seq<Key>, x: Symbol, y: Symbol)
    requires h.Valid() && IsAt(h.e + h.i, key, below, x) && IsAt(h.e + h.i, key, below, y) && Promotes(x, y)
    ensures !UnpromotedAt(h.x + h.y, key, below)
  {
    hide IsAt, Faithful, Precedes;
    var xs, xm := HalfOf(h, key, below, x);
    var ox := OriginalOf(xs, xm, key, below, x);
    var ys, ym := HalfOf(h, key, below, y);
    var oy := OriginalOf(ys, ym, key, below, y);
    var w := ExporterOf(ys, ym, key, below, y, x.package.value);
    RanksPrecede(y, oy, x, ox);
    NotPreceding(w, oy, ox);
    RootsFirst(w, oy);
    assert Promotes(ox, w);
  }

  lemma RootsFirst(w: Symbol, o: Symbol)
    requires !Precedes(w, o) && !IsRootExport(o)
    ensures !IsRootExport(w)
  {
  }

  lemma StillUnpromoted(h: Halves)
    requires h.Valid() && Unpromoted(h.x + h.y)
    ensures Unpromoted(h.e + h.i)
  {
    hide IsAt, Faithful, Promotes;
    forall key, below, x, y | IsAt(h.e + h.i, key, below, x) && IsAt(h.e + h.i, key, below, y)
      ensures !Promotes(x, y)
    {
      assert UnpromotedAt(h.x + h.y, key, below);
      if Promotes(x, y) {
        PromotionIsOriginal(h, key, below, x, y);
      }
    }
  }

  lemma LeastOfBoth(h: Halves, key: Key, below: seq<Key>, o: Symbol, s: Symbol)
    requires h.Valid() && LeastAt(h.e + h.i, key, below, o) && IsAt(h.x + h.y, key, below, s)
    ensures !Precedes(s, o)
  {
    hide IsAt, Faithful, Precedes, IsRootExport;
    IsAtBoth(h.x, h.y, key, below, s);
    var originals := if IsAt(h.x, key, below, s) then h.x else h.y;
    var merged := if IsAt(h.x, key, below, s) then h.e else h.i;
    var m := MergedOf(originals, merged, key, below, s);
    IsAtBoth(h.e, h.i, key, below, m);
    var om := OriginalOf(originals, merged, key, below, m);
    RanksPrecede(m, om, o, o);
    NotPreceding(s, om, o);
  }

  lemma StandsForBoth(h: Halves, key: Key, below: seq<Key>, m: Symbol)
    requires h.Valid() && StandsFor(h.e + h.i, key, below, m)
    ensures StandsFor(h.x + h.y, key, below, m)
  {
    hide IsAt, Faithful, Precedes, IsRootExport;
    var n :| LeastAt(h.e + h.i, key, below, n) && Keeps(m, n);
    var originals, merged := HalfOf(h, key, below, n);
    var o := OriginalOf(originals, merged, key, below, n);
    forall s | IsAt(h.x + h.y, key, below, s)
      ensures !Precedes(s, o)
    {
      LeastOfBoth(h, key, below, n, s);
      RanksPrecede(s, s, n, o);
    }
    assert LeastAt(h.x + h.y, key, below, o) && Keeps(m, o);
  }

  /** Merging two faithful merges is a faithful merge of the originals. */
  lemma MergedTwice(h: Halves, c: seq<Symbol>)
    requires h.Valid() && Unpromoted(h.x + h.y)
    requires Preserves(h.e + h.i, c) && (Unpromoted(h.e + h.i) ==> Represents(h.e + h.i, c))
    ensures Faithful(h.x + h.y, c)
  {
    hide IsAt, HoldsAt, StandsFor;
    StillUnpromoted(h);
    forall key, below, m | IsAt(c, key, below, m)
      ensures StandsFor(h.x + h.y, key, below, m)
    {
      StandsForBoth(h, key, below, m);
    }
    forall key, below, f
      ensures Kept(HoldsAt(h.x + h.y, key, below, f), HoldsAt(c, key, below, f), f)
    {
      HoldsBoth(h.x, h.y, key, below, f);
      HoldsBoth(h.e, h.i, key, below, f);
      assert Kept(HoldsAt(h.x, key, below, f), HoldsAt(h.e, key, below, f), f);
      assert Kept(HoldsAt(h.y, key, below, f), HoldsAt(h.i, key, below, f), f);
      assert Kept(HoldsAt(h.e + h.i, key, below, f), HoldsAt(c, key, below, f), f);
    }
  }

  // ---------- the children of a group ----------

  /** The children of all symbols of the key, in order. */
  ghost function ChildrenOf(symbols: seq<Symbol>, key: Key): seq<Symbol> {
    if symbols == [] then []
    else
      var last := symbols[|symbols| - 1];
      ChildrenOf(symbols[..|symbols| - 1], key) + if KeyOf(last) == key then last.children else []
  }

  lemma ChildrenMore(seen: seq<Symbol>, s: Symbol, key: Key)
    ensures ChildrenOf(seen + [s], key) == ChildrenOf(seen, key) + if KeyOf(s) == key then s.children else []
  {
    hide KeyOf;
    assert (seen + [s])[..|seen|] == seen;
  }

  lemma {:induction false} NoChildren(symbols: seq<Symbol>, key: Key)
    requires forall s :: s in symbols ==> KeyOf(s) != key
    ensures ChildrenOf(symbols, key) == []
  {
    hide KeyOf;
    if symbols != [] {
      NoChildren(symbols[..|symbols| - 1], key);
    }
  }

  /** What stands below a key stands below the children of its group. */
  lemma {:induction false} BelowKey(symbols: seq<Symbol>, key: Key, below: seq<Key>, s: Symbol)
    requires below != []
    ensures IsAt(symbols, key, below, s) <==> IsAt(ChildrenOf(symbols, key), below[0], below[1..], s)
    decreases |symbols|
  {
    hide KeyOf;
    if symbols == [] {
      assert forall t :: t !in ChildrenOf(symbols, key);
    } else {
      var init, last := symbols[..|symbols| - 1], symbols[|symbols| - 1];
      BelowKey(init, key, below, s);
      assert symbols == init + [last];
      IsAtBoth(init, [last], key, below, s);
      assert IsAt([last], key, below, s) <==> KeyOf(last) == key && IsIn(last, below, s);
      IsAtBoth(ChildrenOf(init, key), if KeyOf(last) == key then last.children else [], below[0], below[1..], s);
    }
  }

  lemma UnpromotedChildren(symbols: seq<Symbol>, part: seq<Symbol>, key: Key)
    requires Unpromoted(symbols) && forall s :: s in part ==> s in symbols
    ensures Unpromoted(ChildrenOf(part, key))
  {
    hide IsAt, Promotes;
    forall k, below, x, y | IsAt(ChildrenOf(part, key), k, below, x) && IsAt(ChildrenOf(part, key), k, below, y)
      ensures !Promotes(x, y)
    {
      var path := [k] + below;
      assert path[0] == k && path[1..] == below;
      BelowKey(part, key, path, x);
      BelowKey(part, key, path, y);
      IsAtPart(part, symbols, key, path, x);
      IsAtPart(part, symbols, key, path, y);
      assert UnpromotedAt(symbols, key, path);
    }
  }

  lemma UnpromotedChild(symbols: seq<Symbol>, s: Symbol)
    requires Unpromoted(symbols) && s in symbols
    ensures Unpromoted(s.children)
  {
    hide KeyOf;
    UnpromotedChildren(symbols, [s], KeyOf(s));
    assert [s][..0] == [];
    assert ChildrenOf([s], KeyOf(s)) == s.children;
  }
}

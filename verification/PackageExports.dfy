/** The consolidation of declaration symbols: symbols of one public key become one symbol, at every
    level of the tree. */
module PackageExports {
  import opened SourceGraphs
  import opened Texts
  import opened SymbolTrees
  import opened Representatives

  // ---------- grouping by key ----------

  /** The merged symbol is the first of its key, with the first documentation among them. */
  ghost predicate Chosen(m: Symbol, seen: seq<Symbol>, key: Key) {
    && FirstWith(seen, key).Some? && SameOrigin(m, FirstWith(seen, key).value)
    && m.docs == FirstDocs(seen, key)
    && (m.exportPaths == FirstWith(seen, key).value.exportPaths || Ascending(m.exportPaths))
  }

  ghost predicate WellChosen(seen: seq<Symbol>, byKey: map<Key, Symbol>) {
    forall key :: key in byKey ==>
      KeyOf(byKey[key]) == key && Canonical(byKey[key].children) && Chosen(byKey[key], seen, key)
  }

  ghost predicate FactsKept(seen: seq<Symbol>, byKey: map<Key, Symbol>) {
    forall key, below, f ::
      Kept(HoldsAt(seen, key, below, f), key in byKey && HoldsIn(byKey[key], below, f), f)
  }

  /** The processed symbols are grouped: one merged symbol for each key, nothing lost. */
  ghost predicate Grouped(seen: seq<Symbol>, byKey: map<Key, Symbol>) {
    WellChosen(seen, byKey) && FactsKept(seen, byKey)
  }

  function Absorbed(existing: Symbol, s: Symbol, children: seq<Symbol>): Symbol {
    existing.(exportPaths := SortedDistinct(existing.exportPaths + s.exportPaths),
              referenced := existing.referenced && s.referenced,
              docs := if existing.docs.None? then s.docs else existing.docs,
              children := children)
  }

  lemma {:induction false} FirstMore(seen: seq<Symbol>, s: Symbol, key: Key)
    ensures FirstWith(seen + [s], key)
         == if FirstWith(seen, key).Some? then FirstWith(seen, key) else if KeyOf(s) == key then Some(s) else None
    ensures FirstDocs(seen + [s], key)
         == if FirstDocs(seen, key).Some? then FirstDocs(seen, key) else if KeyOf(s) == key then s.docs else None
  {
    hide KeyOf;
    if seen != [] {
      assert (seen + [s])[1..] == seen[1..] + [s];
      FirstMore(seen[1..], s, key);
    }
  }

  lemma {:induction false} NoKeyNoDocs(seen: seq<Symbol>, key: Key)
    requires FirstWith(seen, key).None?
    ensures FirstDocs(seen, key).None?
  {
    if seen != [] {
      NoKeyNoDocs(seen[1..], key);
    }
  }

  /** Replacing the children of a symbol by merged ones keeps what holds in it. */
  lemma ChildrenKept(s: Symbol, children: seq<Symbol>, below: seq<Key>, f: Fact)
    requires Preserves(s.children, children)
    ensures Kept(HoldsIn(s, below, f), HoldsIn(s.(children := children), below, f), f)
  {
    hide HoldsAt;
  }

  lemma AbsorbedKeeps(existing: Symbol, s: Symbol, children: seq<Symbol>, below: seq<Key>, f: Fact)
    requires Preserves(existing.children + s.children, children)
    ensures Kept(HoldsIn(existing, below, f) || HoldsIn(s, below, f),
                 HoldsIn(Absorbed(existing, s, children), below, f), f)
  {
    hide HoldsAt, SortedDistinct;
    if below != [] {
      HoldsBoth(existing.children, s.children, below[0], below[1..], f);
    }
  }

  lemma AbsorbedKeepsAll(existing: Symbol, s: Symbol, inner: seq<Symbol>, children: seq<Symbol>)
    requires Preserves(s.children, inner) && Preserves(existing.children + inner, children)
    ensures forall below, f ::
              Kept(HoldsIn(existing, below, f) || HoldsIn(s, below, f),
                   HoldsIn(Absorbed(existing, s.(children := inner), children), below, f), f)
  {
    hide HoldsIn, Preserves, Absorbed;
    forall below, f
      ensures Kept(HoldsIn(existing, below, f) || HoldsIn(s, below, f),
                   HoldsIn(Absorbed(existing, s.(children := inner), children), below, f), f)
    {
      ChildrenKept(s, inner, below, f);
      AbsorbedKeeps(existing, s.(children := inner), children, below, f);
    }
  }

  /** One more symbol, whose group is now `m`. */
  lemma FactsKeptMore(seen: seq<Symbol>, byKey: map<Key, Symbol>, s: Symbol, m: Symbol)
    requires FactsKept(seen, byKey)
    requires forall below, f ::
               Kept((KeyOf(s) in byKey && HoldsIn(byKey[KeyOf(s)], below, f)) || HoldsIn(s, below, f),
                    HoldsIn(m, below, f), f)
    ensures FactsKept(seen + [s], byKey[KeyOf(s) := m])
  {
    hide KeyOf, HoldsIn, HoldsAt;
    forall key, below, f
      ensures var more := byKey[KeyOf(s) := m];
              Kept(HoldsAt(seen + [s], key, below, f), key in more && HoldsIn(more[key], below, f), f)
    {
      HoldsMore(seen, s, key, below, f);
      assert Kept(HoldsAt(seen, key, below, f), key in byKey && HoldsIn(byKey[key], below, f), f);
    }
  }

  lemma KnownKey(seen: seq<Symbol>, byKey: map<Key, Symbol>, key: Key)
    requires FactsKept(seen, byKey)
    ensures key in byKey <==> FirstWith(seen, key).Some?
  {
    hide KeyOf;
    assert Kept(HoldsAt(seen, key, [], Present), key in byKey && HoldsIn(byKey[key], [], Present), Present);
  }

  lemma WellChosenMore(seen: seq<Symbol>, byKey: map<Key, Symbol>, s: Symbol, m: Symbol)
    requires WellChosen(seen, byKey) && KeyOf(m) == KeyOf(s) && Canonical(m.children)
    requires Chosen(m, seen + [s], KeyOf(s))
    ensures WellChosen(seen + [s], byKey[KeyOf(s) := m])
  {
    hide KeyOf, Canonical, SameOrigin;
    forall key | key in byKey && key != KeyOf(s)
      ensures Chosen(byKey[key], seen + [s], key)
    {
      FirstMore(seen, s, key);
    }
  }

  lemma GroupNew(seen: seq<Symbol>, byKey: map<Key, Symbol>, s: Symbol, children: seq<Symbol>)
    requires Grouped(seen, byKey) && KeyOf(s) !in byKey
    requires Preserves(s.children, children) && Canonical(children)
    ensures Grouped(seen + [s], byKey[KeyOf(s) := s.(children := children)])
  {
    hide WellChosen, FactsKept, HoldsIn, Preserves, Canonical;
    var m := s.(children := children);
    forall below, f
      ensures Kept(HoldsIn(s, below, f), HoldsIn(m, below, f), f)
    {
      ChildrenKept(s, children, below, f);
    }
    FactsKeptMore(seen, byKey, s, m);
    KnownKey(seen, byKey, KeyOf(s));
    NoKeyNoDocs(seen, KeyOf(s));
    FirstMore(seen, s, KeyOf(s));
    WellChosenMore(seen, byKey, s, m);
  }

  lemma GroupKnown(seen: seq<Symbol>, byKey: map<Key, Symbol>, s: Symbol, inner: seq<Symbol>, children: seq<Symbol>)
    requires Grouped(seen, byKey) && KeyOf(s) in byKey && Canonical(children)
    requires Preserves(s.children, inner) && Preserves(byKey[KeyOf(s)].children + inner, children)
    ensures Grouped(seen + [s], byKey[KeyOf(s) := Absorbed(byKey[KeyOf(s)], s.(children := inner), children)])
  {
    hide FactsKept, HoldsIn, Preserves, Canonical;
    var existing := byKey[KeyOf(s)];
    var m := Absorbed(existing, s.(children := inner), children);
    AbsorbedKeepsAll(existing, s, inner, children);
    FactsKeptMore(seen, byKey, s, m);
    FirstMore(seen, s, KeyOf(s));
    WellChosenMore(seen, byKey, s, m);
  }

  // ---------- merging ----------

  /** The merged list: the groups in the order of their keys. */
  ghost predicate IsListOf(merged: seq<Symbol>, byKey: map<Key, Symbol>) {
    && (forall i, j :: 0 <= i < j < |merged| ==> Less(KeyOf(merged[i]), KeyOf(merged[j])))
    && (forall m :: m in merged <==> KeyOf(m) in byKey && byKey[KeyOf(m)] == m)
  }

  method InKeyOrder(byKey: map<Key, Symbol>) returns (merged: seq<Symbol>)
    requires forall key :: key in byKey ==> KeyOf(byKey[key]) == key
    ensures IsListOf(merged, byKey)
  {
    hide KeyOf, Less;
    var keys, rest := [], byKey.Keys;
    while rest != {}
      invariant rest <= byKey.Keys && Ascending(keys)
      invariant forall key :: key in keys <==> key in byKey.Keys - rest
    {
      var key :| key in rest;
      rest := rest - {key};
      keys := Insert(keys, key);
    }
    assert forall key :: key in keys <==> key in byKey;
    merged := seq(|keys|, i requires 0 <= i < |keys| => byKey[keys[i]]);
    forall m
      ensures m in merged <==> KeyOf(m) in byKey && byKey[KeyOf(m)] == m
    {
      if KeyOf(m) in byKey && byKey[KeyOf(m)] == m {
        assert KeyOf(m) in keys;
        var i :| 0 <= i < |keys| && keys[i] == KeyOf(m);
        assert merged[i] == m;
      }
    }
  }

  /** What a merge promises: a canonical list that keeps the facts, for each key the first symbol and
      the first documentation and, unless merging promotes a symbol to a root export, the least
      original at every place below as well. */
  ghost predicate IsMerge(symbols: seq<Symbol>, merged: seq<Symbol>) {
    && Canonical(merged)
    && Preserves(symbols, merged)
    && (forall m :: m in merged ==> Chosen(m, Sorted(symbols), KeyOf(m)))
    && (Unpromoted(symbols) ==> Represents(symbols, merged))
  }

  lemma ListIsMerge(symbols: seq<Symbol>, byKey: map<Key, Symbol>, merged: seq<Symbol>)
    requires Grouped(Sorted(symbols), byKey) && IsListOf(merged, byKey)
    requires Unpromoted(symbols) ==> ChildrenFaithful(Sorted(symbols), byKey)
    ensures IsMerge(symbols, merged)
  {
    hide KeyOf, Less, HoldsIn, Sorted, Chosen, Unpromoted, ChildrenFaithful, Represents;
    var seen := Sorted(symbols);
    forall key, below, f
      ensures Kept(HoldsAt(symbols, key, below, f), HoldsAt(merged, key, below, f), f)
    {
      assert HoldsAt(symbols, key, below, f) <==> HoldsAt(seen, key, below, f);
      assert Kept(HoldsAt(seen, key, below, f), key in byKey && HoldsIn(byKey[key], below, f), f);
      if key in byKey {
        assert KeyOf(byKey[key]) == key && byKey[key] in merged;
      }
    }
    forall i | 0 <= i < |merged|
      ensures Canonical(merged[i].children)
    {
      assert merged[i] in merged;
    }
    if Unpromoted(symbols) {
      ListRepresents(symbols, byKey, merged);
    }
  }

  // ---------- representatives, level by level ----------

  /** The merged children of every group represent all children of its symbols. */
  ghost predicate ChildrenFaithful(seen: seq<Symbol>, byKey: map<Key, Symbol>) {
    forall key :: key in byKey ==> Faithful(ChildrenOf(seen, key), byKey[key].children)
  }

  lemma FaithfulNew(symbols: seq<Symbol>, seen: seq<Symbol>, byKey: map<Key, Symbol>, s: Symbol, inner: seq<Symbol>)
    requires Unpromoted(symbols) && s in symbols && ChildrenFaithful(seen, byKey)
    requires Grouped(seen, byKey) && KeyOf(s) !in byKey
    requires IsMerge(s.children, inner)
    ensures ChildrenFaithful(seen + [s], byKey[KeyOf(s) := s.(children := inner)])
  {
    UnpromotedChild(symbols, s);
    KnownKey(seen, byKey, KeyOf(s));
    NoChildren(seen, KeyOf(s));
    hide KeyOf, Grouped, Represents, Preserves, Unpromoted, Canonical, Chosen, ChildrenOf;
    var more := byKey[KeyOf(s) := s.(children := inner)];
    forall key | key in more
      ensures Faithful(ChildrenOf(seen + [s], key), more[key].children)
    {
      ChildrenMore(seen, s, key);
      assert [] + s.children == s.children && ChildrenOf(seen, key) + [] == ChildrenOf(seen, key);
    }
  }

  /** The merged children of the group that a symbol joins represent those of the group and its own. */
  lemma FaithfulGroup(symbols: seq<Symbol>, seen: seq<Symbol>, byKey: map<Key, Symbol>, s: Symbol, inner: seq<Symbol>,
                      children: seq<Symbol>)
    requires Unpromoted(symbols) && ChildrenFaithful(seen, byKey) && KeyOf(s) in byKey
    requires forall x :: x in seen + [s] ==> x in symbols
    requires IsMerge(s.children, inner) && IsMerge(byKey[KeyOf(s)].children + inner, children)
    ensures Faithful(ChildrenOf(seen + [s], KeyOf(s)), children)
  {
    hide KeyOf, Represents, Preserves, Unpromoted, Canonical, Chosen, ChildrenOf, SortedDistinct;
    assert s in seen + [s];
    UnpromotedChild(symbols, s);
    UnpromotedChildren(symbols, seen + [s], KeyOf(s));
    ChildrenMore(seen, s, KeyOf(s));
    var h := Halves(ChildrenOf(seen, KeyOf(s)), byKey[KeyOf(s)].children, s.children, inner);
    assert h.Valid();
    MergedTwice(h, children);
  }

  lemma FaithfulKnown(symbols: seq<Symbol>, seen: seq<Symbol>, byKey: map<Key, Symbol>, s: Symbol, inner: seq<Symbol>,
                      children: seq<Symbol>)
    requires Unpromoted(symbols) && ChildrenFaithful(seen, byKey) && KeyOf(s) in byKey
    requires forall x :: x in seen + [s] ==> x in symbols
    requires IsMerge(s.children, inner) && IsMerge(byKey[KeyOf(s)].children + inner, children)
    ensures ChildrenFaithful(
              seen + [s], byKey[KeyOf(s) := Absorbed(byKey[KeyOf(s)], s.(children := inner), children)])
  {
    hide KeyOf, IsMerge, Faithful, Unpromoted, ChildrenOf, SortedDistinct;
    FaithfulGroup(symbols, seen, byKey, s, inner, children);
    var more := byKey[KeyOf(s) := Absorbed(byKey[KeyOf(s)], s.(children := inner), children)];
    forall key | key in more
      ensures Faithful(ChildrenOf(seen + [s], key), more[key].children)
    {
      ChildrenMore(seen, s, key);
      assert ChildrenOf(seen, key) + [] == ChildrenOf(seen, key);
    }
  }

  lemma {:induction false} FirstPrecedesAll(sorted: seq<Symbol>, key: Key, s: Symbol)
    requires InOrder(sorted) && s in sorted && KeyOf(s) == key
    ensures FirstWith(sorted, key).Some? && !Precedes(s, FirstWith(sorted, key).value)
  {
    hide KeyOf, Precedes;
    PrecedesIsOrder(s, s, s);
    if KeyOf(sorted[0]) != key {
      FirstPrecedesAll(sorted[1..], key, s);
    }
  }

  lemma {:induction false} FirstIsDocumented(sorted: seq<Symbol>, key: Key)
    requires FirstWith(sorted, key).Some? && FirstWith(sorted, key).value.docs.Some?
    ensures FirstDocs(sorted, key) == FirstWith(sorted, key).value.docs
  {
    hide KeyOf;
    if KeyOf(sorted[0]) != key {
      FirstIsDocumented(sorted[1..], key);
    }
  }

  /** The merged symbol of a key is a root export exactly when its first original is one. */
  lemma SameFlag(symbols: seq<Symbol>, merged: seq<Symbol>, m: Symbol, first: Symbol)
    requires Preserves(symbols, merged) && m in merged && LeastAt(symbols, KeyOf(m), [], first)
    requires forall other :: other in merged && KeyOf(other) == KeyOf(m) ==> other == m
    requires SameOrigin(m, first) && UnpromotedAt(symbols, KeyOf(m), [])
    ensures IsRootExport(m) == IsRootExport(first)
  {
    var key := KeyOf(m);
    hide KeyOf, Precedes;
    if m.package.Some? {
      var f := Exported(m.package.value);
      assert Kept(HoldsAt(symbols, key, [], f), HoldsAt(merged, key, [], f), f);
      if IsRootExport(first) {
        AtShows(symbols, key, [], first, f);
        var other := ShownAt(merged, key, [], f);
        assert other == m;
      } else if IsRootExport(m) {
        assert IsAt(merged, key, [], m) by {
          assert IsIn(m, [], m);
        }
        AtShows(merged, key, [], m, f);
        var s := ShownAt(symbols, key, [], f);
        RootsFirst(s, first);
        assert false;
      }
    }
  }

  lemma FirstIsLeastAt(symbols: seq<Symbol>, key: Key)
    requires FirstWith(Sorted(symbols), key).Some?
    ensures LeastAt(symbols, key, [], FirstWith(Sorted(symbols), key).value)
  {
    hide KeyOf, Precedes, Sorted;
    var first := FirstWith(Sorted(symbols), key).value;
    assert IsIn(first, [], first);
    forall s | IsAt(symbols, key, [], s)
      ensures !Precedes(s, first)
    {
      FirstPrecedesAll(Sorted(symbols), key, s);
    }
  }

  lemma TopStandsFor(symbols: seq<Symbol>, byKey: map<Key, Symbol>, merged: seq<Symbol>, m: Symbol)
    requires Unpromoted(symbols) && Grouped(Sorted(symbols), byKey) && IsListOf(merged, byKey)
    requires Preserves(symbols, merged) && m in merged
    ensures StandsFor(symbols, KeyOf(m), [], m)
  {
    var key, sorted := KeyOf(m), Sorted(symbols);
    assert Chosen(m, sorted, key);
    assert UnpromotedAt(symbols, key, []);
    hide KeyOf, Precedes, Sorted, Less, Preserves, Unpromoted, UnpromotedAt, LeastAt;
    FirstIsLeastAt(symbols, key);
    var first := FirstWith(sorted, key).value;
    SameFlag(symbols, merged, m, first);
    if first.docs.Some? {
      FirstIsDocumented(sorted, key);
    }
    assert Keeps(m, first);
  }

  lemma ListRepresents(symbols: seq<Symbol>, byKey: map<Key, Symbol>, merged: seq<Symbol>)
    requires Unpromoted(symbols) && Grouped(Sorted(symbols), byKey) && IsListOf(merged, byKey)
    requires Preserves(symbols, merged) && ChildrenFaithful(Sorted(symbols), byKey)
    ensures Represents(symbols, merged)
  {
    hide KeyOf, Less, Sorted, Grouped, Preserves, Unpromoted, StandsFor, ChildrenFaithful;
    forall key, below, m | IsAt(merged, key, below, m)
      ensures StandsFor(symbols, key, below, m)
    {
      var t :| t in merged && KeyOf(t) == key && IsIn(t, below, m);
      if below == [] {
        TopStandsFor(symbols, byKey, merged, m);
      } else {
        BelowStandsFor(symbols, byKey, key, below, m);
      }
    }
  }

  lemma BelowStandsFor(symbols: seq<Symbol>, byKey: map<Key, Symbol>, key: Key, below: seq<Key>, m: Symbol)
    requires ChildrenFaithful(Sorted(symbols), byKey) && key in byKey && below != []
    requires IsAt(byKey[key].children, below[0], below[1..], m)
    ensures StandsFor(symbols, key, below, m)
  {
    var sorted := Sorted(symbols);
    hide KeyOf, Sorted, Precedes, IsAt, IsIn, Keeps;
    var children := ChildrenOf(sorted, key);
    assert Faithful(children, byKey[key].children);
    assert StandsFor(children, below[0], below[1..], m);
    var o :| LeastAt(children, below[0], below[1..], o) && Keeps(m, o);
    forall s
      ensures IsAt(symbols, key, below, s) <==> IsAt(children, below[0], below[1..], s)
    {
      BelowKey(sorted, key, below, s);
      if IsAt(symbols, key, below, s) {
        IsAtPart(symbols, sorted, key, below, s);
      }
      if IsAt(sorted, key, below, s) {
        IsAtPart(sorted, symbols, key, below, s);
      }
    }
    assert LeastAt(symbols, key, below, o);
  }

  // ---------- merging a canonical list ----------

  /** While a canonical list is merged, every group is one of its symbols. */
  ghost predicate Untouched(seen: seq<Symbol>, byKey: map<Key, Symbol>) {
    && (forall key :: key in byKey ==> byKey[key] in seen && KeyOf(byKey[key]) == key)
    && (forall s :: s in seen ==> KeyOf(s) in byKey && byKey[KeyOf(s)] == s)
  }

  lemma {:induction false} CanonicalKeysDiffer(symbols: seq<Symbol>)
    requires Canonical(symbols)
    ensures DistinctKeys(symbols)
  {
    if symbols != [] {
      forall s | s in symbols[1..]
        ensures KeyOf(s) != KeyOf(symbols[0])
      {
        LessIsOrder(KeyOf(s), KeyOf(s), KeyOf(s));
      }
      CanonicalKeysDiffer(symbols[1..]);
    }
  }

  lemma {:induction false} DistinctAt(symbols: seq<Symbol>, k: nat)
    requires DistinctKeys(symbols) && k < |symbols|
    ensures forall s :: s in symbols[..k] ==> KeyOf(s) != KeyOf(symbols[k])
  {
    hide KeyOf;
    if k > 0 {
      DistinctAt(symbols[1..], k - 1);
      assert symbols[..k] == [symbols[0]] + symbols[1..][..k - 1];
      assert symbols[k] == symbols[1..][k - 1];
    }
  }

  lemma UntouchedStep(seen: seq<Symbol>, s: Symbol, byKey: map<Key, Symbol>)
    requires Untouched(seen, byKey) && forall x :: x in seen ==> KeyOf(x) != KeyOf(s)
    ensures KeyOf(s) !in byKey && Untouched(seen + [s], byKey[KeyOf(s) := s])
  {
    hide KeyOf;
  }

  lemma CanonicalChild(symbols: seq<Symbol>, s: Symbol)
    requires Canonical(symbols) && s in symbols
    ensures Canonical(s.children)
  {
    hide Less;
  }

  lemma UntouchedMore(symbols: seq<Symbol>, k: nat, byKey: map<Key, Symbol>)
    requires Canonical(symbols) && k < |Sorted(symbols)| && Untouched(Sorted(symbols)[..k], byKey)
    ensures KeyOf(Sorted(symbols)[k]) !in byKey
    ensures Untouched(Sorted(symbols)[..k + 1], byKey[KeyOf(Sorted(symbols)[k]) := Sorted(symbols)[k]])
    ensures Canonical(Sorted(symbols)[k].children)
  {
    hide KeyOf, Sorted, DistinctKeys, Untouched, Canonical;
    var sorted := Sorted(symbols);
    CanonicalKeysDiffer(symbols);
    SortedKeepsDistinct(symbols);
    DistinctAt(sorted, k);
    assert sorted[..k + 1] == sorted[..k] + [sorted[k]];
    UntouchedStep(sorted[..k], sorted[k], byKey);
    CanonicalChild(symbols, sorted[k]);
  }

  lemma {:induction false} SameList(a: seq<Symbol>, b: seq<Symbol>)
    requires forall i, j :: 0 <= i < j < |a| ==> Less(KeyOf(a[i]), KeyOf(a[j]))
    requires forall i, j :: 0 <= i < j < |b| ==> Less(KeyOf(b[i]), KeyOf(b[j]))
    requires forall s :: s in a <==> s in b
    ensures a == b
  {
    hide KeyOf, Less;
    assert |a| > 0 ==> a[0] in a;
    assert |b| > 0 ==> b[0] in b;
    if a != [] {
      LessIsOrder(KeyOf(a[0]), KeyOf(b[0]), KeyOf(a[0]));
      assert a[0] == b[0];
      LessIsOrder(KeyOf(a[0]), KeyOf(a[0]), KeyOf(a[0]));
      assert a[0] !in a[1..] && b[0] !in b[1..];
      forall s
        ensures s in a[1..] <==> s in b[1..]
      {
        assert s in a <==> s == a[0] || s in a[1..];
        assert s in b <==> s == b[0] || s in b[1..];
      }
      SameList(a[1..], b[1..]);
    }
  }

  lemma UntouchedList(symbols: seq<Symbol>, byKey: map<Key, Symbol>, merged: seq<Symbol>)
    requires Canonical(symbols) && Untouched(Sorted(symbols), byKey) && IsListOf(merged, byKey)
    ensures merged == symbols
  {
    hide KeyOf, Less, Sorted;
    SameList(merged, symbols);
  }

  lemma JoinedHeight(a: seq<Symbol>, b: seq<Symbol>, h: nat)
    requires Height(a) < h && Height(b) < h
    ensures Height(a + b) < h
  {
    forall s | s in a + b
      ensures Height(s.children) < h - 1
    {
      HeightBelow(if s in a then a else b, s);
    }
    HeightBounded(a + b, h - 1);
  }

  // ---------- the merge as a function ----------

  function KeysIn(symbols: seq<Symbol>): (keys: seq<Key>)
    ensures Ascending(keys) && forall key :: key in keys <==> exists s :: s in symbols && KeyOf(s) == key
  {
    if symbols == [] then [] else
      var keys := Insert(KeysIn(symbols[1..]), KeyOf(symbols[0]));
      assert forall s :: s in symbols <==> s == symbols[0] || s in symbols[1..];
      keys
  }

  /** The group of a key after these symbols, whose children are lower than `h`. */
  ghost function Group(sorted: seq<Symbol>, key: Key, h: nat): (group: Option<Symbol>)
    requires forall s :: s in sorted ==> Height(s.children) < h
    ensures group.Some? <==> FirstWith(sorted, key).Some?
    ensures group.Some? ==> Height(group.value.children) < h && KeyOf(group.value) == key
    decreases h, 0, |sorted|
  {
    if sorted == [] then None
    else
      var init, last := sorted[..|sorted| - 1], sorted[|sorted| - 1];
      assert sorted == init + [last];
      FirstMore(init, last, key);
      var before := Group(init, key, h);
      if KeyOf(last) != key then before
      else
        var inner := Merged(last.children);
        if before.None? then Some(last.(children := inner))
        else
          JoinedHeight(before.value.children, inner, h);
          Some(Absorbed(before.value, last.(children := inner), Merged(before.value.children + inner)))
  }

  /** The groups of the keys, in their order. */
  ghost function Groups(sorted: seq<Symbol>, keys: seq<Key>, h: nat): (groups: seq<Symbol>)
    requires forall s :: s in sorted ==> Height(s.children) < h
    requires forall i :: 0 <= i < |keys| ==> FirstWith(sorted, keys[i]).Some?
    ensures |groups| == |keys| && forall i :: 0 <= i < |keys| ==> Group(sorted, keys[i], h) == Some(groups[i])
    ensures forall s :: s in groups ==> Height(s.children) < h
    decreases h, 0, |sorted| + 1
  {
    seq(|keys|, i requires 0 <= i < |keys| => Group(sorted, keys[i], h).value)
  }

  /** What the merge of a list is. */
  ghost function Merged(symbols: seq<Symbol>): (merged: seq<Symbol>)
    ensures Height(merged) <= Height(symbols)
    decreases Height(symbols), 1, 0
  {
    SortedHeights(symbols);
    KeysAreFound(symbols);
    var merged := Groups(Sorted(symbols), KeysIn(symbols), Height(symbols));
    HeightBounded(merged, Height(symbols));
    merged
  }

  lemma KeysAreFound(symbols: seq<Symbol>)
    ensures forall i :: 0 <= i < |KeysIn(symbols)| ==> FirstWith(Sorted(symbols), KeysIn(symbols)[i]).Some?
  {
    hide KeyOf;
    assert forall i :: 0 <= i < |KeysIn(symbols)| ==> KeysIn(symbols)[i] in KeysIn(symbols);
  }

  lemma SortedHeights(symbols: seq<Symbol>)
    ensures forall s :: s in Sorted(symbols) ==> Height(s.children) < Height(symbols)
  {
    forall s | s in Sorted(symbols)
      ensures Height(s.children) < Height(symbols)
    {
      HeightBelow(symbols, s);
    }
  }

  /** Every group is the one the function gives. */
  ghost predicate Follows(seen: seq<Symbol>, byKey: map<Key, Symbol>, h: nat)
    requires forall s :: s in seen ==> Height(s.children) < h
  {
    forall key :: Group(seen, key, h) == if key in byKey then Some(byKey[key]) else None
  }

  lemma FollowsMore(seen: seq<Symbol>, byKey: map<Key, Symbol>, h: nat, s: Symbol, inner: seq<Symbol>,
                    children: seq<Symbol>)
    requires forall x :: x in seen + [s] ==> Height(x.children) < h
    requires forall x :: x in seen ==> x in seen + [s]
    requires Follows(seen, byKey, h) && inner == Merged(s.children)
    requires KeyOf(s) in byKey ==> children == Merged(byKey[KeyOf(s)].children + inner)
    ensures var group := if KeyOf(s) in byKey then Absorbed(byKey[KeyOf(s)], s.(children := inner), children)
                         else s.(children := inner);
            Follows(seen + [s], byKey[KeyOf(s) := group], h)
  {
    hide KeyOf, Merged, Absorbed, Sorted, KeysIn;
    var all := seen + [s];
    assert all[..|all| - 1] == seen && all[|all| - 1] == s;
  }

  lemma MergedAt(symbols: seq<Symbol>, byKey: map<Key, Symbol>, i: nat)
    requires forall s :: s in Sorted(symbols) ==> Height(s.children) < Height(symbols)
    requires Follows(Sorted(symbols), byKey, Height(symbols)) && i < |KeysIn(symbols)|
    ensures |Merged(symbols)| == |KeysIn(symbols)|
    ensures KeysIn(symbols)[i] in byKey && Merged(symbols)[i] == byKey[KeysIn(symbols)[i]]
    ensures KeyOf(Merged(symbols)[i]) == KeysIn(symbols)[i]
  {
    hide KeyOf, Less, Sorted, Height, Group, KeysIn;
    assert KeysIn(symbols)[i] in KeysIn(symbols);
    assert Group(Sorted(symbols), KeysIn(symbols)[i], Height(symbols)).Some?;
  }

  lemma ListedByKeys(merged: seq<Symbol>, all: seq<Symbol>, keys: seq<Key>, byKey: map<Key, Symbol>)
    requires IsListOf(merged, byKey) && Ascending(keys) && |all| == |keys|
    requires forall key :: key in keys <==> key in byKey
    requires forall i :: 0 <= i < |all| ==> all[i] == byKey[keys[i]] && KeyOf(all[i]) == keys[i]
    ensures merged == all
  {
    hide KeyOf, Less;
    forall m
      ensures m in merged <==> m in all
    {
      if m in merged {
        var i :| 0 <= i < |keys| && keys[i] == KeyOf(m);
        assert all[i] == m;
      }
      if m in all {
        var i :| 0 <= i < |all| && all[i] == m;
        assert keys[i] in keys;
      }
    }
    SameList(merged, all);
  }

  lemma ListFollows(symbols: seq<Symbol>, byKey: map<Key, Symbol>, merged: seq<Symbol>)
    requires forall s :: s in Sorted(symbols) ==> Height(s.children) < Height(symbols)
    requires Follows(Sorted(symbols), byKey, Height(symbols)) && IsListOf(merged, byKey)
    ensures merged == Merged(symbols)
  {
    var keys := KeysIn(symbols);
    forall key
      ensures key in keys <==> key in byKey
    {
      assert Group(Sorted(symbols), key, Height(symbols)) == if key in byKey then Some(byKey[key]) else None;
    }
    hide KeyOf, Less, Sorted, Height, Group, KeysIn, Merged, Follows;
    forall i | 0 <= i < |keys|
      ensures |Merged(symbols)| == |keys| && Merged(symbols)[i] == byKey[keys[i]]
      ensures KeyOf(Merged(symbols)[i]) == keys[i]
    {
      assert keys[i] in keys;
      MergedAt(symbols, byKey, i);
    }
    MergedLength(symbols);
    ListedByKeys(merged, Merged(symbols), keys, byKey);
  }

  lemma MergedLength(symbols: seq<Symbol>)
    ensures |Merged(symbols)| == |KeysIn(symbols)|
  {
  }

  /** Merges the symbols of equal keys and leaves a canonical list as it is. */
  method MergeSymbols(symbols: seq<Symbol>) returns (merged: seq<Symbol>)
    ensures merged == Merged(symbols)
    ensures IsMerge(symbols, merged)
    ensures Canonical(symbols) ==> merged == symbols
    decreases Height(symbols)
  {
    hide IsMerge, Grouped, Untouched, Canonical, KeyOf, Height, IsListOf, Sorted, ChildrenFaithful, Unpromoted, Follows;
    hide Merged, Group;
    var sorted := Sorted(symbols);
    var byKey: map<Key, Symbol> := map[];
    NothingGrouped(sorted);
    SortedHeights(symbols);
    for k := 0 to |sorted|
      invariant Grouped(sorted[..k], byKey)
      invariant Follows(sorted[..k], byKey, Height(symbols))
      invariant forall key :: key in byKey ==> Height(byKey[key].children) < Height(symbols)
      invariant Canonical(symbols) ==> Untouched(sorted[..k], byKey)
      invariant Unpromoted(symbols) ==> ChildrenFaithful(sorted[..k], byKey)
    {
      var symbol := sorted[k];
      ghost var seen, groups := sorted[..k], byKey;
      assert sorted[..k + 1] == seen + [symbol];
      HeightBelow(symbols, symbol);
      var inner := MergeSymbols(symbol.children);
      if Canonical(symbols) {
        UntouchedMore(symbols, k, byKey);
        assert inner == symbol.children;
      }
      var key := KeyOf(symbol);
      if key in byKey {
        var existing := byKey[key];
        JoinedHeight(existing.children, inner, Height(symbols));
        var children := MergeSymbols(existing.children + inner);
        MergeMeans(symbol.children, inner);
        MergeMeans(existing.children + inner, children);
        GroupKnown(seen, byKey, symbol, inner, children);
        FollowsMore(seen, byKey, Height(symbols), symbol, inner, children);
        if Unpromoted(symbols) {
          assert forall x :: x in seen + [symbol] ==> x in sorted;
          FaithfulKnown(symbols, seen, byKey, symbol, inner, children);
        }
        byKey := byKey[key := Absorbed(existing, symbol.(children := inner), children)];
      } else {
        MergeMeans(symbol.children, inner);
        GroupNew(seen, byKey, symbol, inner);
        FollowsMore(seen, byKey, Height(symbols), symbol, inner, []);
        if Unpromoted(symbols) {
          FaithfulNew(symbols, seen, byKey, symbol, inner);
        }
        byKey := byKey[key := symbol.(children := inner)];
      }
    }
    assert sorted[..|sorted|] == sorted;
    GroupKeys(sorted, byKey);
    merged := InKeyOrder(byKey);
    ListIsMerge(symbols, byKey, merged);
    ListFollows(symbols, byKey, merged);
    if Canonical(symbols) {
      UntouchedList(symbols, byKey, merged);
    }
  }

  lemma NothingGrouped(sorted: seq<Symbol>)
    ensures sorted[..0] == [] && Grouped(sorted[..0], map[]) && Untouched(sorted[..0], map[])
    ensures ChildrenFaithful(sorted[..0], map[]) && forall h :: Follows(sorted[..0], map[], h)
  {
  }

  lemma MergeMeans(symbols: seq<Symbol>, merged: seq<Symbol>)
    requires IsMerge(symbols, merged)
    ensures Preserves(symbols, merged) && Canonical(merged)
  {
  }

  lemma GroupKeys(seen: seq<Symbol>, byKey: map<Key, Symbol>)
    requires Grouped(seen, byKey)
    ensures forall key :: key in byKey ==> KeyOf(byKey[key]) == key
  {
  }

  /** The scan report, whose symbols are replaced. */
  class ScanReport {
    var symbols: seq<Symbol>
    var symbolsFound: nat

    method ConsolidateDeclarationSymbols()
      modifies this
      ensures IsMerge(old(symbols), symbols) && symbolsFound == |symbols|
      ensures Canonical(old(symbols)) ==> symbols == old(symbols)
    {
      symbols := MergeSymbols(symbols);
      symbolsFound := |symbols|;
    }
  }

  /** Consolidating twice is consolidating once. */
  method ConsolidateTwice(report: ScanReport) returns (once: seq<Symbol>)
    modifies report
    ensures IsMerge(old(report.symbols), once) && report.symbols == once && report.symbolsFound == |once|
  {
    report.ConsolidateDeclarationSymbols();
    once := report.symbols;
    report.ConsolidateDeclarationSymbols();
  }

  // ---------- what it means for readers of the tree ----------

  /** Some symbol of the key shows the fact. */
  ghost predicate Seen(symbols: seq<Symbol>, key: Key, f: Fact) {
    exists s :: s in symbols && KeyOf(s) == key && Shows(s, f)
  }

  lemma KeptSeen(symbols: seq<Symbol>, merged: seq<Symbol>, key: Key, f: Fact)
    requires IsMerge(symbols, merged)
    ensures Kept(Seen(symbols, key, f), Seen(merged, key, f), f)
  {
    hide KeyOf, Shows, Chosen, Canonical;
    assert Kept(HoldsAt(symbols, key, [], f), HoldsAt(merged, key, [], f), f);
  }

  /** A merged list has one symbol for each key of the originals; it exports what they export, is
      referenced only if all of them are, and is documented if one of them is. */
  lemma MergedSymbol(symbols: seq<Symbol>, merged: seq<Symbol>, m: Symbol, path: string)
    requires IsMerge(symbols, merged) && m in merged
    ensures FirstWith(symbols, KeyOf(m)).Some?
    ensures forall other :: other in merged && KeyOf(other) == KeyOf(m) ==> other == m
    ensures path in m.exportPaths <==> exists s :: s in symbols && KeyOf(s) == KeyOf(m) && path in s.exportPaths
    ensures m.referenced <==> forall s :: s in symbols && KeyOf(s) == KeyOf(m) ==> s.referenced
    ensures m.docs.Some? <==> exists s :: s in symbols && KeyOf(s) == KeyOf(m) && s.docs.Some?
  {
    UniqueKey(symbols, merged, m);
    hide IsMerge, KeyOf;
    SeenOne(symbols, merged, m, Present);
    SeenOne(symbols, merged, m, Exported(path));
    SeenOne(symbols, merged, m, Unreferenced);
    SeenOne(symbols, merged, m, Documented);
  }

  /** The merged symbol of a key shows what the originals of that key show. */
  lemma SeenOne(symbols: seq<Symbol>, merged: seq<Symbol>, m: Symbol, f: Fact)
    requires IsMerge(symbols, merged) && m in merged && f.Conserved()
    ensures Seen(symbols, KeyOf(m), f) <==> Shows(m, f)
  {
    UniqueKey(symbols, merged, m);
    KeptSeen(symbols, merged, KeyOf(m), f);
    hide IsMerge, KeyOf, Shows;
  }

  lemma UniqueKey(symbols: seq<Symbol>, merged: seq<Symbol>, m: Symbol)
    requires IsMerge(symbols, merged) && m in merged
    ensures forall other :: other in merged && KeyOf(other) == KeyOf(m) ==> other == m
  {
    LessIsOrder(KeyOf(m), KeyOf(m), KeyOf(m));
    hide Less, KeyOf, Chosen;
  }

  /** No key is lost. */
  lemma KeyKept(symbols: seq<Symbol>, merged: seq<Symbol>, s: Symbol)
    requires IsMerge(symbols, merged) && s in symbols
    ensures exists m :: m in merged && KeyOf(m) == KeyOf(s)
  {
    KeptSeen(symbols, merged, KeyOf(s), Present);
    assert Seen(symbols, KeyOf(s), Present);
  }

  /** The representative of a key is the least symbol of that key, whatever the order of the rest. */
  lemma LeastRepresents(symbols: seq<Symbol>, merged: seq<Symbol>, m: Symbol, i: nat)
    requires IsMerge(symbols, merged) && m in merged && IsLeast(symbols, KeyOf(m), i)
    ensures SameOrigin(m, symbols[i])
  {
    FirstIsLeast(symbols, KeyOf(m), i);
  }

  /** At every place of the tree, unless something is promoted, the merged symbol is an original that no
      other one there precedes, and has its documentation if that one is documented. */
  lemma LeastRepresentsBelow(symbols: seq<Symbol>, merged: seq<Symbol>, key: Key, below: seq<Key>, m: Symbol)
    returns (o: Symbol)
    requires IsMerge(symbols, merged) && Unpromoted(symbols) && IsAt(merged, key, below, m)
    ensures LeastAt(symbols, key, below, o) && SameOrigin(m, o)
    ensures IsRootExport(m) == IsRootExport(o) && (o.docs.Some? ==> m.docs == o.docs)
  {
    hide IsAt, LeastAt, HoldsAt, Precedes, Chosen, Canonical;
    o := OriginalOf(symbols, merged, key, below, m);
  }

  /** Where documented originals come first, the documentation is that of the first documented one. */
  lemma FirstDocsBelow(symbols: seq<Symbol>, merged: seq<Symbol>, key: Key, below: seq<Key>, m: Symbol)
    returns (d: Symbol)
    requires IsMerge(symbols, merged) && Unpromoted(symbols) && IsAt(merged, key, below, m)
    requires m.docs.Some? && DocumentedFirstAt(symbols, key, below)
    ensures IsAt(symbols, key, below, d) && d.docs == m.docs
    ensures forall s :: IsAt(symbols, key, below, s) && s.docs.Some? ==> !Precedes(s, d)
  {
    hide IsAt, HoldsAt, Precedes, Chosen, Canonical;
    d := DocsAreFirst(symbols, merged, key, below, m);
  }

  // ---------- what promotion and late documentation do ----------

  // That nothing is promoted is enough for a merge to represent its originals, and no weaker condition on
  // pairs of symbols would be: every promoting pair goes wrong in some family. It is not necessary in every
  // list: a root export of the same key comes before such a pair.

  lemma MergedOne(a: Symbol)
    ensures Merged([a]) == [a.(children := Merged(a.children))]
  {
    var keys, sorted, h := KeysIn([a]), Sorted([a]), Height([a]);
    assert sorted == [a];
    assert keys == [KeyOf(a)] by {
      assert KeyOf(a) in keys && forall key :: key in keys ==> key == KeyOf(a);
      OnlyKey(keys, KeyOf(a));
    }
    SortedHeights([a]);
    assert sorted[..0] == [];
    hide KeyOf;
    assert Group(sorted, KeyOf(a), h) == Some(a.(children := Merged(a.children)));
  }

  lemma OnlyKey(keys: seq<Key>, key: Key)
    requires Ascending(keys) && key in keys && forall k :: k in keys ==> k == key
    ensures keys == [key]
  {
    AscendingIsUnique(keys, [key]);
  }

  /** What becomes of two symbols of one key when the first absorbs the second. */
  ghost function Pair(a: Symbol, b: Symbol): Symbol {
    Absorbed(a.(children := Merged(a.children)), b.(children := Merged(b.children)),
             Merged(Merged(a.children) + Merged(b.children)))
  }

  lemma PairKeepsFirst(a: Symbol, b: Symbol)
    ensures KeyOf(Pair(a, b)) == KeyOf(a) && SameOrigin(Pair(a, b), a)
    ensures Pair(a, b).docs == (if a.docs.Some? then a.docs else b.docs)
    ensures forall path :: path in Pair(a, b).exportPaths <==> path in a.exportPaths || path in b.exportPaths
    ensures Pair(a, b).children == Merged(Merged(a.children) + Merged(b.children))
  {
  }

  lemma KeysOfPair(a: Symbol, b: Symbol)
    requires KeyOf(a) == KeyOf(b)
    ensures KeysIn([a, b]) == [KeyOf(a)]
  {
    hide KeyOf;
    assert [a, b][1..] == [b];
    assert a in [a, b] && KeyOf(a) in KeysIn([a, b]);
    assert forall k :: k in KeysIn([a, b]) ==> k == KeyOf(a);
    OnlyKey(KeysIn([a, b]), KeyOf(a));
  }

  /** Of two symbols of one key the one that the other does not precede absorbs it. */
  lemma MergedPair(a: Symbol, b: Symbol)
    requires KeyOf(a) == KeyOf(b) && !Precedes(b, a)
    ensures Merged([a, b]) == [Pair(a, b)]
  {
    var key := KeyOf(a);
    var sorted, h := Sorted([a, b]), Height([a, b]);
    SortedPair(a, b);
    SortedHeights([a, b]);
    hide KeyOf, Absorbed, KeysIn, Precedes, Sorted;
    KeysOfPair(a, b);
    assert sorted[..1] == [a] && [a][..0] == [] && sorted[1] == b;
    assert Group([a], key, h) == Some(a.(children := Merged(a.children)));
  }

  lemma SortedPair(a: Symbol, b: Symbol)
    requires !Precedes(b, a)
    ensures Sorted([a, b]) == [a, b]
  {
    assert [a, b][1..] == [b] && [b][1..] == [];
    hide Precedes;
    assert Sorted([b]) == [b];
  }

  /** Two parents alike, the first with two children of one key and the second with a third. */
  function Family(top: Symbol, x: Symbol, y: Symbol, z: Symbol): seq<Symbol> {
    [top.(children := [x, y]), top.(children := [z])]
  }

  lemma FamilyMerged(top: Symbol, x: Symbol, y: Symbol, z: Symbol) returns (m: Symbol)
    requires KeyOf(x) == KeyOf(y) == KeyOf(z) && !Precedes(y, x) && !Precedes(z, Pair(x, y))
    ensures IsAt(Merged(Family(top, x, y, z)), KeyOf(top), [KeyOf(x)], m)
    ensures SameOrigin(m, x) && m.docs == if Pair(x, y).docs.Some? then Pair(x, y).docs else z.docs
  {
    hide Precedes, Merged, Pair, KeyOf, SameOrigin, IsRootExport;
    var a, b, xy, zz := top.(children := [x, y]), top.(children := [z]), Pair(x, y), z.(children := Merged(z.children));
    MergedPair(x, y);
    MergedOne(z);
    PairKeepsFirst(x, y);
    LikeParents(top, [x, y], [z]);
    MergedPair(a, b);
    PairKeepsFirst(a, b);
    NewChildren(z, Merged(z.children));
    RanksPrecede(z, zz, xy, xy);
    MergedPair(xy, zz);
    PairKeepsFirst(xy, zz);
    m := Pair(xy, zz);
    SameOriginTwice(m, xy, x);
    assert [xy] + [zz] == [xy, zz];
    assert Merged([xy] + [zz]) == [m];
    OneLevelDown(Merged(Family(top, x, y, z)), Pair(a, b), KeyOf(x), m);
  }

  lemma NewChildren(s: Symbol, children: seq<Symbol>)
    ensures KeyOf(s.(children := children)) == KeyOf(s) && SameRank(s, s.(children := children))
  {
  }

  lemma SameOriginTwice(a: Symbol, b: Symbol, c: Symbol)
    requires SameOrigin(a, b) && SameOrigin(b, c)
    ensures SameOrigin(a, c)
  {
  }

  lemma LikeParents(top: Symbol, x: seq<Symbol>, y: seq<Symbol>)
    ensures KeyOf(top.(children := x)) == KeyOf(top) == KeyOf(top.(children := y))
    ensures !Precedes(top.(children := y), top.(children := x))
  {
    PrecedesIsOrder(top, top, top);
  }

  /** What stands in the family below its parents are the three children. */
  lemma InFamily(top: Symbol, x: Symbol, y: Symbol, z: Symbol, s: Symbol)
    requires KeyOf(x) == KeyOf(y) == KeyOf(z)
    ensures IsAt(Family(top, x, y, z), KeyOf(top), [KeyOf(x)], s) <==> s == x || s == y || s == z
  {
    var a, b, family := top.(children := [x, y]), top.(children := [z]), Family(top, x, y, z);
    LikeParents(top, [x, y], [z]);
    assert a in family && b in family;
    hide KeyOf, IsAt;
    if IsAt(family, KeyOf(top), [KeyOf(x)], s) {
      var t := ParentOf(family, KeyOf(top), KeyOf(x), s);
    }
    OneLevelDown(family, a, KeyOf(x), x);
    OneLevelDown(family, a, KeyOf(x), y);
    OneLevelDown(family, b, KeyOf(x), z);
  }

  /** Any two symbols of which one promotes the other misrepresent some family, in which a third child
      precedes them: the merge keeps `x` all the same. */
  lemma PromotionMisrepresents(top: Symbol, x: Symbol, y: Symbol) returns (z: Symbol)
    requires KeyOf(x) == KeyOf(y) && Promotes(x, y) && (x.filePath != "" || x.id != "")
    ensures KeyOf(z) == KeyOf(x) && Precedes(z, x)
    ensures !Represents(Family(top, x, y, z), Merged(Family(top, x, y, z)))
  {
    z := EarlierThird(x);
    PromotedPair(x, y, z);
    hide KeyOf, Precedes, IsRootExport, Pair, Merged, Family;
    var m := FamilyMerged(top, x, y, z);
    hide IsAt, SameRank;
    forall o | LeastAt(Family(top, x, y, z), KeyOf(top), [KeyOf(x)], o)
      ensures !Keeps(m, o)
    {
      LeastIsOther(top, x, y, z, o);
    }
    assert !StandsFor(Family(top, x, y, z), KeyOf(top), [KeyOf(x)], m);
  }

  /** The least child of the family is not where `x` is when the third precedes it. */
  lemma LeastIsOther(top: Symbol, x: Symbol, y: Symbol, z: Symbol, o: Symbol)
    requires KeyOf(x) == KeyOf(y) == KeyOf(z) && Precedes(z, x) && !IsRootExport(x) && !IsRootExport(y)
    requires z.filePath != x.filePath || z.id != x.id
    requires LeastAt(Family(top, x, y, z), KeyOf(top), [KeyOf(x)], o)
    ensures o.filePath != x.filePath || o.id != x.id
  {
    hide KeyOf, Family, Precedes, IsAt, IsRootExport;
    InFamily(top, x, y, z, o);
    InFamily(top, x, y, z, z);
    if o.filePath == x.filePath && o.id == x.id {
      RanksPrecede(z, z, x, o);
    }
  }

  lemma EarlierThird(x: Symbol) returns (z: Symbol)
    requires !IsRootExport(x) && (x.filePath != "" || x.id != "")
    ensures KeyOf(z) == KeyOf(x) && !IsRootExport(z) && Precedes(z, x)
    ensures z.filePath != x.filePath || z.id != x.id
  {
    z := x.(filePath := "", id := if x.filePath != "" then x.id else "", exportPaths := []);
  }

  lemma PromotedPair(x: Symbol, y: Symbol, z: Symbol)
    requires Promotes(x, y) && !IsRootExport(z)
    ensures !Precedes(z, Pair(x, y))
    ensures forall o :: SameOrigin(o, x) || SameOrigin(x, o) ==> x.filePath == o.filePath && x.id == o.id
  {
    PairKeepsFirst(x, y);
    assert IsRootExport(Pair(x, y));
  }

  /** Any documented symbol that an undocumented one of its key precedes comes first in some family,
      although a documented third child precedes it. */
  lemma LateDocsComeFirst(top: Symbol, x: Symbol, y: Symbol) returns (z: Symbol, m: Symbol)
    requires KeyOf(x) == KeyOf(y) && Precedes(x, y) && x.docs.None? && y.docs.Some?
    ensures IsAt(Family(top, x, y, z), KeyOf(top), [KeyOf(x)], z) && z.docs.Some? && Precedes(z, y)
    ensures IsAt(Merged(Family(top, x, y, z)), KeyOf(top), [KeyOf(x)], m) && m.docs == y.docs != z.docs
  {
    z := x.(docs := Some(y.docs.value + "."));
    PrecedesIsOrder(x, y, x);
    PairKeepsFirst(x, y);
    assert !Precedes(z, Pair(x, y)) by {
      PrecedesIsOrder(x, x, x);
    }
    m := FamilyMerged(top, x, y, z);
    InFamily(top, x, y, z, z);
  }

  /** Such symbols exist: an unnamed package shares its keys with the package named public-api. */
  lemma PromotionHappens() returns (x: Symbol, y: Symbol)
    ensures KeyOf(x) == KeyOf(y) && Promotes(x, y) && x.filePath != ""
  {
    x := Symbol.Symbol("ts:a.ts:function#run", "a.ts", Some("public-api"), SymbolKind.Function, "run", "run(): void",
                SourceVisibility.Public, "", None, [], false, []);
    y := x.(id := "ts:b.ts:function#run", filePath := "b.ts", package := None, exportPaths := ["public-api"]);
    assert Less("a.ts", "b.ts");
    LessIsOrder("a.ts", "b.ts", "a.ts");
  }
}

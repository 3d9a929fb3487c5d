/** The comparison of a public API baseline, as a file holds it, with the one built from the sources. */
module ApiDiff {
  import opened SourceGraphs
  import opened ApiBaseline

  type ByIdentity = map<Identity, PublicSymbol>

  /** The map has every listed symbol under its identity, and nothing else. */
  ghost predicate Lists(items: seq<Item>, symbols: ByIdentity) {
    forall e :: e in items <==> e.0 in symbols && symbols[e.0] == e.1
  }

  lemma ListOne(items: seq<Item>, symbols: ByIdentity, e: Item)
    requires Distinct(items) && Lists(items, symbols)
    ensures Distinct(items + [e]) <==> e.0 !in symbols
    ensures e.0 !in symbols ==> Lists(items + [e], symbols[e.0 := e.1])
  {
    if e.0 in symbols {
      var d := (e.0, symbols[e.0]);
      assert d in items;
      var i :| 0 <= i < |items| && items[i] == d;
      assert (items + [e])[i].0 == (items + [e])[|items|].0;
    } else {
      forall i | 0 <= i < |items|
        ensures items[i].0 != e.0
      {
        assert items[i] in items;
      }
    }
  }

  lemma RepetitionStays(items: seq<Item>, more: seq<Item>)
    requires !Distinct(items)
    ensures !Distinct(items + more)
  {
    var i, j :| 0 <= i < j < |items| && items[i].0 == items[j].0;
    assert (items + more)[i].0 == (items + more)[j].0;
  }

  /** Refuses exactly the baselines in which an identity occurs twice, and otherwise lists them all. */
  method SymbolsByStableKey(b: Baseline) returns (symbols: Option<ByIdentity>)
    ensures symbols.Some? <==> UniqueIdentities(b)
    ensures symbols.Some? ==> Lists(Items(b), symbols.value)
  {
    hide Distinct, Lists;
    var byKey: ByIdentity := map[];
    NothingListed();
    for i := 0 to |b|
      invariant Distinct(Items(b[..i])) && Lists(Items(b[..i]), byKey)
    {
      var p := b[i];
      ghost var before := Items(b[..i]);
      assert b[..i + 1] == b[..i] + [p];
      ItemsMore(b[..i], p);
      assert before + ItemsOf(p.name, p.symbols)[..0] == before;
      for k := 0 to |p.symbols|
        invariant Distinct(before + ItemsOf(p.name, p.symbols)[..k])
        invariant Lists(before + ItemsOf(p.name, p.symbols)[..k], byKey)
      {
        var id := SymbolIdentity(p.name, p.symbols[k]);
        ghost var items := ItemsOf(p.name, p.symbols);
        assert before + items[..k + 1] == before + items[..k] + [items[k]];
        ListOne(before + items[..k], byKey, items[k]);
        if id in byKey {
          Repeated(b, i, before + items[..k + 1]);
          return None;
        }
        byKey := byKey[id := p.symbols[k]];
      }
      assert ItemsOf(p.name, p.symbols)[..|p.symbols|] == ItemsOf(p.name, p.symbols);
    }
    assert b[..|b|] == b;
    return Some(byKey);
  }

  lemma NothingListed()
    ensures Items([][..0]) == [] && Distinct([]) && Lists([], map[])
  {
  }

  lemma Repeated(b: Baseline, i: nat, items: seq<Item>)
    requires i < |b| && !Distinct(items) && items <= Items(b[..i + 1])
    ensures !UniqueIdentities(b)
  {
    var all := Items(b[..i + 1]);
    assert all == items + all[|items|..];
    RepetitionStays(items, all[|items|..]);
    ItemsPrefix(b, i + 1);
    RepetitionStays(all, Items(b)[|all|..]);
    assert Items(b) == all + Items(b)[|all|..];
  }

  lemma {:induction false} ItemsPrefix(b: Baseline, i: nat)
    requires i <= |b|
    ensures Items(b[..i]) <= Items(b)
    decreases |b|
  {
    if i < |b| {
      ItemsPrefix(b[..|b| - 1], i);
      assert b[..|b| - 1][..i] == b[..i];
    } else {
      assert b[..i] == b;
    }
  }

  ghost predicate Listed(b: Baseline, id: Identity, contracts: seq<string>) {
    exists e :: e in Items(b) && e.0 == id && e.1.contracts == contracts
  }

  ghost predicate Exports(b: Baseline, package: string, path: string) {
    exists i :: 0 <= i < |b| && b[i].name == package && path in b[i].header.exports
  }

  /** Everything public in the one is public, unchanged, in the other. */
  ghost predicate KeptIn(old_: Baseline, new_: Baseline) {
    && (forall id, contracts :: Listed(old_, id, contracts) ==> Listed(new_, id, contracts))
    && (forall p, e :: Exports(old_, p, e) ==> Exports(new_, p, e))
  }

  function ExportKeys(b: Baseline): (keys: set<(string, string)>)
    ensures forall p, e :: (p, e) in keys <==> Exports(b, p, e)
  {
    set i, e | 0 <= i < |b| && e in b[i].header.exports :: (b[i].name, e)
  }

  datatype Verdict = Duplicate | Verdict(fails: bool)

  /** Without `exact` a comparison fails exactly when something public is gone or has changed; with it,
      exactly when anything public differs. */
  method Compare(baseline: Baseline, current: Baseline, exact: bool) returns (v: Verdict)
    ensures v.Duplicate? <==> !UniqueIdentities(baseline) || !UniqueIdentities(current)
    ensures v.Verdict? ==> (v.fails <==> !KeptIn(baseline, current) || (exact && !KeptIn(current, baseline)))
  {
    hide UniqueIdentities, KeptIn;
    var old_ := SymbolsByStableKey(baseline);
    if old_.None? {
      return Duplicate;
    }
    var new_ := SymbolsByStableKey(current);
    if new_.None? {
      return Duplicate;
    }
    var before, after := old_.value, new_.value;
    var added := set id | id in after && id !in before;
    var removed := set id | id in before && id !in after;
    var changed := set id | id in after && id in before && before[id].contracts != after[id].contracts;
    var addedExports := ExportKeys(current) - ExportKeys(baseline);
    var removedExports := ExportKeys(baseline) - ExportKeys(current);
    KeptExactly(baseline, current, before, after);
    KeptExactly(current, baseline, after, before);
    assert changed == set id | id in before && id in after && after[id].contracts != before[id].contracts;
    var breaking := |removed| + |removedExports|;
    var additive := |added| + |addedExports|;
    return Verdict.Verdict(breaking > 0 || |changed| > 0 || (exact && additive > 0));
  }

  lemma KeptExactly(b: Baseline, c: Baseline, before: ByIdentity, after: ByIdentity)
    requires Lists(Items(b), before) && Lists(Items(c), after)
    ensures KeptIn(b, c) <==>
              && (set id | id in before && id !in after) == {}
              && (set id | id in after && id in before && before[id].contracts != after[id].contracts) == {}
              && ExportKeys(b) - ExportKeys(c) == {}
  {
    ListedMeans(b, before);
    ListedMeans(c, after);
    hide Listed, Lists, Exports;
    if KeptIn(b, c) {
      forall id | id in before
        ensures id in after && after[id].contracts == before[id].contracts
      {
        assert Listed(b, id, before[id].contracts);
      }
    }
    if ExportKeys(b) - ExportKeys(c) == {} {
      forall p, e | Exports(b, p, e)
        ensures Exports(c, p, e)
      {
        assert (p, e) in ExportKeys(b);
        assert (p, e) !in ExportKeys(b) - ExportKeys(c);
      }
    }
    var removed := set id | id in before && id !in after;
    var changed := set id | id in after && id in before && before[id].contracts != after[id].contracts;
    if removed == {} && changed == {} {
      forall id, contracts | Listed(b, id, contracts)
        ensures Listed(c, id, contracts)
      {
        assert id !in removed && id !in changed;
      }
    }
  }

  lemma ListedMeans(b: Baseline, symbols: ByIdentity)
    requires Lists(Items(b), symbols)
    ensures forall id, contracts :: Listed(b, id, contracts) <==> id in symbols && symbols[id].contracts == contracts
  {
    forall id | id in symbols
      ensures (id, symbols[id]) in Items(b)
    {
      assert (id, symbols[id]).0 in symbols;
    }
  }

  /** A baseline built again from reordered symbols compares clean, in exact mode too. */
  method DiffRebuilt(a: seq<Report>, b: seq<Report>, digest: Digest) returns (v: Verdict)
    requires SameReports(a, b)
    ensures v == Verdict.Verdict(false)
  {
    var first := BaselineFromReports(a, digest);
    var second := BaselineFromReports(b, digest);
    BaselineIgnoresOrder(a, b, digest, first, second);
    v := Compare(first, second, true);
  }

  /** An entry listed twice is refused, even word for word. */
  lemma VerbatimRepetitionIsRefused(p: Package, x: PublicSymbol, rest: Baseline)
    requires p.symbols == [x, x]
    ensures !UniqueIdentities([p] + rest)
  {
    ItemsMore([], p);
    assert [] + [p] == [p];
    ItemsPrefix([p] + rest, 1);
    assert ([p] + rest)[..1] == [p];
    var items := Items([p]);
    assert items[0].0 == items[1].0;
    RepetitionStays(items, Items([p] + rest)[2..]);
    assert Items([p] + rest) == items + Items([p] + rest)[2..];
  }
}

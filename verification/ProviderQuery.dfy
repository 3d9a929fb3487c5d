/** The query for approved providers of a capability, over an index of the graph's relations. */
module ProviderQuery {
  import opened SourceGraphs
  import opened Texts
  import opened RelationPaths

  type Id = string

  const PROVIDER_LIFECYCLES: set<string> := {"candidate", "approved", "prohibited", "superseded"}
  const APPROVAL_SCOPES: set<string> := {"personal", "project", "organization"}
  const PROVIDER_ORIGINS: set<string> := {"internal", "external", "package", "service", "tool"}

  datatype Approval = Approval(
    lifecycle: string, scope: string, origin: string, owner: Id, compatibilityRange: string, risk: string,
    source: string)

  /** The declarations a query distinguishes, with the attributes the vocabulary gives their kinds; the
      contract of a capability is the only one of them that may be absent. */
  datatype Object =
    | Capability(contract: Option<Id>)
    | ProviderApproval(approval: Approval)
    | Provider
    | Organization
    | Contract(version: string)
    | OtherObject(kind: string)

  datatype Graph = Graph(objects: map<Id, Object>, relations: map<string, Relation>)

  /** What compilation guarantees of these relations and references: the vocabulary's kinds on both
      ends of a relation, and targets that exist. Of what kind a capability's contract is, it does
      not check. */
  predicate Compiled(g: Graph) {
    && (forall r :: r in g.relations.Values ==>
          && r.subject in g.objects && r.target in g.objects
          && (r.kind == "approves" ==> g.objects[r.subject].ProviderApproval? && g.objects[r.target].Provider?)
          && (r.kind == "covers" ==> g.objects[r.subject].ProviderApproval? && g.objects[r.target].Capability?)
          && (r.kind == "provides" ==> IsSupplier(g.objects[r.subject]) && g.objects[r.target].Capability?)
          && (r.kind == "implements" ==>
                IsSupplier(g.objects[r.subject])
                && (g.objects[r.target].Capability? || g.objects[r.target].Contract?)))
    && (forall c :: c in g.objects && g.objects[c].Capability? && g.objects[c].contract.Some? ==>
          g.objects[c].contract.value in g.objects)
    && (forall a :: a in g.objects && g.objects[a].ProviderApproval? ==> g.objects[a].approval.owner in g.objects)
  }

  predicate IsSupplier(x: Object) {
    x.Provider? || x == OtherObject("app") || x == OtherObject("package")
  }

  // ---------- the index ----------

  ghost predicate Related(relations: map<string, Relation>, kind: PredicateId, subject: Id, target: Id) {
    Relation(kind, subject, target) in relations.Values
  }

  /** The index: the targets of each predicate and subject, and all the triples. */
  class RelationIndex {
    const byKindAndSubject: map<(PredicateId, Id), seq<Id>>
    const exact: set<(PredicateId, Id, Id)>

    /** Every lookup answers as a scan of the relations would. */
    ghost predicate Indexes(relations: map<string, Relation>) {
      && (forall kind, subject, target ::
            (kind, subject, target) in exact <==> Related(relations, kind, subject, target))
      && (forall kind, subject :: Ascending(Targets(kind, subject)))
      && (forall kind, subject, target ::
            target in Targets(kind, subject) <==> Related(relations, kind, subject, target))
    }

    function Targets(kind: PredicateId, subject: Id): seq<Id> {
      if (kind, subject) in byKindAndSubject then byKindAndSubject[(kind, subject)] else []
    }

    predicate Contains(kind: PredicateId, subject: Id, target: Id) {
      (kind, subject, target) in exact
    }

    constructor (relations: map<string, Relation>)
      ensures Indexes(relations)
    {
      var targets: map<(PredicateId, Id), seq<Id>> := map[];
      var triples: set<(PredicateId, Id, Id)> := {};
      var ids := relations.Keys;
      while ids != {}
        invariant ids <= relations.Keys
        invariant forall kind, subject, target :: (kind, subject, target) in triples <==>
                    exists id :: id in relations.Keys - ids && relations[id] == Relation(kind, subject, target)
        invariant forall kind, subject, target :: (kind, subject, target) in triples <==>
                    (kind, subject) in targets && target in targets[(kind, subject)]
      {
        var id :| id in ids;
        ids := ids - {id};
        var r := relations[id];
        var known := if (r.kind, r.subject) in targets then targets[(r.kind, r.subject)] else [];
        targets := targets[(r.kind, r.subject) := known + [r.target]];
        triples := triples + {(r.kind, r.subject, r.target)};
      }
      byKindAndSubject := map k | k in targets :: SortedDistinct(targets[k]);
      exact := triples;
    }
  }

  // ---------- what a query demands ----------

  ghost predicate Approves(g: Graph, a: Id, p: Id) {
    Related(g.relations, "approves", a, p) && forall q :: Related(g.relations, "approves", a, q) ==> q == p
  }

  ghost predicate Covers(g: Graph, a: Id, c: Id) {
    Related(g.relations, "covers", a, c)
  }

  predicate IsApproval(g: Graph, a: Id) {
    a in g.objects && g.objects[a].ProviderApproval?
  }

  /** The approval grants the capability in the scope. */
  ghost predicate Selected(g: Graph, a: Id, capability: Id, scope: string) {
    && IsApproval(g, a) && g.objects[a].approval.lifecycle == "approved" && g.objects[a].approval.scope == scope
    && Covers(g, a, capability)
  }

  predicate Closed(x: Approval) {
    x.lifecycle in PROVIDER_LIFECYCLES && x.scope in APPROVAL_SCOPES && x.origin in PROVIDER_ORIGINS
  }

  ghost predicate Shaped(g: Graph, a: Id, p: Id)
    requires IsApproval(g, a)
  {
    && Approves(g, a, p) && (exists c :: Covers(g, a, c))
    && p in g.objects && g.objects[p].Provider?
  }

  predicate Owned(g: Graph, x: Approval) {
    x.owner in g.objects && g.objects[x.owner].Organization?
  }

  /** The provider implements what the capability names as its contract. */
  ghost predicate ImplementsNamed(g: Graph, p: Id, capability: Id) {
    && capability in g.objects && g.objects[capability].Capability?
    && g.objects[capability].contract.Some? && g.objects[capability].contract.value in g.objects
    && Related(g.relations, "implements", p, g.objects[capability].contract.value)
  }

  /** The provider has the contract of the capability, and it is one. */
  ghost predicate Implements(g: Graph, p: Id, capability: Id) {
    ImplementsNamed(g, p, capability) && g.objects[g.objects[capability].contract.value].Contract?
  }

  /** The capability names no contract, or the provider implements something there that has no version. */
  ghost predicate Unreadable(g: Graph, p: Id, capability: Id) {
    && capability in g.objects && g.objects[capability].Capability?
    && (g.objects[capability].contract.None? ||
        (ImplementsNamed(g, p, capability) && !g.objects[g.objects[capability].contract.value].Contract?))
  }

  /** Examining this approval asks for an attribute that is not there. */
  ghost predicate Crashing(g: Graph, a: Id, capability: Id, scope: string) {
    IsApproval(g, a) && exists p :: Shaped(g, a, p) && Selected(g, a, capability, scope) && Unreadable(g, p, capability)
  }

  /** One approval is in order: closed values, one provider that provides all it covers, an owning
      organization and, when it is selected, an implemented contract. */
  ghost predicate InOrder(g: Graph, a: Id, p: Id, capability: Id, scope: string)
    requires IsApproval(g, a)
  {
    && Closed(g.objects[a].approval) && Shaped(g, a, p) && Owned(g, g.objects[a].approval)
    && (forall c :: Covers(g, a, c) ==> Related(g.relations, "provides", p, c))
    && (Selected(g, a, capability, scope) ==> Implements(g, p, capability))
  }

  ghost predicate Sound(g: Graph, a: Id, capability: Id, scope: string)
    requires IsApproval(g, a)
  {
    exists p :: InOrder(g, a, p, capability, scope)
  }

  type Classification = (Id, Id, string)

  /** The approval classifies a provider for a capability in its scope. */
  ghost predicate Classifies(g: Graph, a: Id, key: Classification) {
    && IsApproval(g, a) && Shaped(g, a, key.0) && Covers(g, a, key.1) && g.objects[a].approval.scope == key.2
  }

  ghost predicate NoDuplicates(g: Graph, approvals: set<Id>) {
    forall a, b, key :: a in approvals && b in approvals && Classifies(g, a, key) && Classifies(g, b, key) ==> a == b
  }

  ghost predicate AllSound(g: Graph, approvals: set<Id>, capability: Id, scope: string) {
    forall a :: a in approvals && IsApproval(g, a) ==> Sound(g, a, capability, scope)
  }

  /** The query has an answer. */
  ghost predicate Answerable(g: Graph, capability: Id, scope: string) {
    && scope in APPROVAL_SCOPES
    && capability in g.objects && g.objects[capability].Capability?
    && AllSound(g, g.objects.Keys, capability, scope) && NoDuplicates(g, g.objects.Keys)
  }

  datatype ApprovedProvider = ApprovedProvider(
    approvalId: Id, providerId: Id, capabilityId: Id, contractId: Id, contractVersion: string, approval: Approval)

  /** The entry belongs to a selected approval, names its provider, and the provider provides the
      capability and implements its contract. */
  ghost predicate IsEntry(g: Graph, capability: Id, scope: string, x: ApprovedProvider) {
    && Selected(g, x.approvalId, capability, scope) && Approves(g, x.approvalId, x.providerId)
    && x.approval == g.objects[x.approvalId].approval && x.capabilityId == capability
    && Related(g.relations, "provides", x.providerId, capability)
    && Implements(g, x.providerId, capability)
    && Some(x.contractId) == g.objects[capability].contract
    && g.objects[x.contractId] == Contract(x.contractVersion)
  }

  // ---------- the query ----------

  datatype Code =
    | InvalidScope | TargetNotCapability | CapabilityUnresolved | InvalidClassification | ProviderCardinality
    | CapabilityCardinality | ProviderUnresolved | TargetNotProvider | OwnerNotOrganization | OwnerUnresolved
    | DuplicateClassification | CapabilityNotProvided | ContractUnresolved | ContractNotImplemented

  method ValidateClosedValue(value: string, allowed: set<string>) returns (codes: seq<Code>)
    ensures |codes| == 0 <==> value in allowed
  {
    codes := if value in allowed then [] else [InvalidClassification];
  }

  function KeysOf(provider: Id, scope: string, covered: seq<Id>): (keys: set<Classification>)
    ensures forall key :: key in keys <==> key.0 == provider && key.1 in covered && key.2 == scope
  {
    set c | c in covered :: (provider, c, scope)
  }

  lemma KeysMore(provider: Id, scope: string, covered: seq<Id>, c: Id)
    ensures KeysOf(provider, scope, covered + [c]) == KeysOf(provider, scope, covered) + {(provider, c, scope)}
  {
    var more := KeysOf(provider, scope, covered + [c]);
    forall key
      ensures key in more <==> key in KeysOf(provider, scope, covered) || key == (provider, c, scope)
    {
      assert key == (key.0, key.1, key.2);
    }
  }

  /** What a capability needs to be classified. */
  ghost predicate Classifiable(g: Graph, provider: Id, scope: string, before: map<Classification, Id>, c: Id) {
    (provider, c, scope) !in before && Related(g.relations, "provides", provider, c)
  }

  ghost predicate AllClassifiable(g: Graph, provider: Id, scope: string, before: map<Classification, Id>,
                                  covered: seq<Id>)
  {
    forall c :: c in covered ==> Classifiable(g, provider, scope, before, c)
  }

  /** Files the covered capabilities of one approval, and reports each that was filed before or that
      the provider does not provide. */
  method Classify(g: Graph, index: RelationIndex, a: Id, provider: Id, scope: string, covered: seq<Id>,
                  classifications: map<Classification, Id>)
    returns (filed: map<Classification, Id>, codes: seq<Code>)
    requires index.Indexes(g.relations) && Ascending(covered)
    ensures filed.Keys == classifications.Keys + KeysOf(provider, scope, covered)
    ensures |codes| == 0 <==> AllClassifiable(g, provider, scope, classifications, covered)
  {
    hide KeysOf, Related, AllClassifiable, Ascending, RelationIndex.Indexes;
    filed, codes := classifications, [];
    NoneClassified(g, provider, scope, classifications);
    assert covered[..0] == [];
    for k := 0 to |covered|
      invariant filed.Keys == classifications.Keys + KeysOf(provider, scope, covered[..k])
      invariant |codes| == 0 <==> AllClassifiable(g, provider, scope, classifications, covered[..k])
    {
      var c := covered[k];
      ghost var key := (provider, c, scope);
      assert covered[..k + 1] == covered[..k] + [c];
      OneClassified(g, provider, scope, classifications, covered, k);
      ContainsMeans(g, index, provider, c);
      assert key in filed.Keys <==> key in classifications.Keys;
      if (provider, c, scope) in filed {
        codes := codes + [DuplicateClassification];
      }
      filed := filed[(provider, c, scope) := a];
      if !index.Contains("provides", provider, c) {
        codes := codes + [CapabilityNotProvided];
      }
    }
    assert covered[..|covered|] == covered;
  }

  lemma ContainsMeans(g: Graph, index: RelationIndex, provider: Id, c: Id)
    requires index.Indexes(g.relations)
    ensures index.Contains("provides", provider, c) <==> Related(g.relations, "provides", provider, c)
  {
  }

  lemma NoneClassified(g: Graph, provider: Id, scope: string, before: map<Classification, Id>)
    ensures KeysOf(provider, scope, []) == {} && AllClassifiable(g, provider, scope, before, [])
  {
  }

  lemma OneClassified(g: Graph, provider: Id, scope: string, before: map<Classification, Id>, covered: seq<Id>, k: nat)
    requires Ascending(covered) && k < |covered|
    ensures KeysOf(provider, scope, covered[..k] + [covered[k]])
         == KeysOf(provider, scope, covered[..k]) + {(provider, covered[k], scope)}
    ensures (provider, covered[k], scope) !in KeysOf(provider, scope, covered[..k])
    ensures AllClassifiable(g, provider, scope, before, covered[..k] + [covered[k]]) <==>
            AllClassifiable(g, provider, scope, before, covered[..k])
            && (provider, covered[k], scope) !in before && Related(g.relations, "provides", provider, covered[k])
  {
    hide Related, Less, KeysOf;
    LessIsOrder(covered[k], covered[k], covered[k]);
    KeysMore(provider, scope, covered[..k], covered[k]);
    assert covered[k] !in covered[..k];
  }

  /** What examining one approval yields. */
  ghost predicate Examined(g: Graph, a: Id, capability: Id, scope: string, before: map<Classification, Id>,
                           after: map<Classification, Id>, codes: seq<Code>, entry: Option<ApprovedProvider>)
    requires IsApproval(g, a)
  {
    && (|codes| == 0 <==>
        Sound(g, a, capability, scope) && forall key :: Classifies(g, a, key) ==> key !in before)
    && (|codes| == 0 ==>
          && (forall key :: key in after <==> key in before || Classifies(g, a, key))
          && (entry.Some? <==> Selected(g, a, capability, scope))
          && (entry.Some? ==> IsEntry(g, capability, scope, entry.value) && entry.value.approvalId == a))
  }

  method Examine(g: Graph, index: RelationIndex, a: Id, capability: Id, scope: string,
                 classifications: map<Classification, Id>)
    returns (filed: map<Classification, Id>, codes: seq<Code>, entry: Option<ApprovedProvider>, crashed: bool)
    requires index.Indexes(g.relations) && IsApproval(g, a)
    requires capability in g.objects && g.objects[capability].Capability?
    ensures crashed <==> Crashing(g, a, capability, scope)
    ensures !crashed ==> Examined(g, a, capability, scope, classifications, filed, codes, entry)
  {
    hide IsEntry, Selected, Implements, Unreadable;
    var x := g.objects[a].approval;
    var lifecycle := ValidateClosedValue(x.lifecycle, PROVIDER_LIFECYCLES);
    var approvalScope := ValidateClosedValue(x.scope, APPROVAL_SCOPES);
    var origin := ValidateClosedValue(x.origin, PROVIDER_ORIGINS);
    filed, codes, entry, crashed := classifications, lifecycle + approvalScope + origin, None, false;
    var providers, covered := index.Targets("approves", a), index.Targets("covers", a);
    assert |codes| == 0 <==> Closed(x);
    if |providers| != 1 {
      NotOneProvider(g, index, a);
      codes := codes + [ProviderCardinality];
      return;
    }
    if covered == [] {
      assert forall c :: !Covers(g, a, c);
      codes := codes + [CapabilityCardinality];
      return;
    }
    var provider := providers[0];
    assert covered[0] in covered && Covers(g, a, covered[0]);
    OneProvider(g, index, a);
    if provider !in g.objects {
      codes := codes + [ProviderUnresolved];
      return;
    }
    if !g.objects[provider].Provider? {
      codes := codes + [TargetNotProvider];
      return;
    }
    if x.owner !in g.objects {
      codes := codes + [OwnerUnresolved];
    } else if !g.objects[x.owner].Organization? {
      codes := codes + [OwnerNotOrganization];
    }
    var more, last;
    filed, more := Classify(g, index, a, provider, x.scope, covered, classifications);
    SelectedCovers(g, a, capability, scope, covered);
    last, entry, crashed := Grant(g, index, a, provider, capability, scope, covered);
    if crashed {
      return;
    }
    Concluded(g, a, provider, capability, scope, classifications, filed, covered, codes, more, last, entry);
    codes := codes + more + last;
  }

  /** The last part of an examination: the entry of a selected approval. */
  method Grant(g: Graph, index: RelationIndex, a: Id, provider: Id, capability: Id, scope: string, covered: seq<Id>)
    returns (codes: seq<Code>, entry: Option<ApprovedProvider>, crashed: bool)
    requires index.Indexes(g.relations) && IsApproval(g, a)
    requires capability in g.objects && g.objects[capability].Capability? && Approves(g, a, provider)
    requires forall c :: c in covered <==> Covers(g, a, c)
    ensures crashed <==> Selected(g, a, capability, scope) && Unreadable(g, provider, capability)
    ensures !crashed ==>
              (|codes| == 0 <==> (Selected(g, a, capability, scope) ==> Implements(g, provider, capability)))
    ensures !crashed && |codes| == 0 ==> (entry.Some? <==> Selected(g, a, capability, scope))
    ensures entry.Some? && Related(g.relations, "provides", provider, capability) ==>
              IsEntry(g, capability, scope, entry.value) && entry.value.approvalId == a
  {
    var x := g.objects[a].approval;
    if x.lifecycle != "approved" || x.scope != scope || capability !in covered {
      return [], None, false;
    }
    if g.objects[capability].contract.None? {
      return [], None, true;
    }
    var contract := g.objects[capability].contract.value;
    if contract !in g.objects {
      return [ContractUnresolved], None, false;
    }
    if !index.Contains("implements", provider, contract) {
      return [ContractNotImplemented], None, false;
    }
    if !g.objects[contract].Contract? {
      return [], None, true;
    }
    return [], Some(ApprovedProvider(a, provider, capability, contract, g.objects[contract].version, x)), false;
  }

  lemma OneProvider(g: Graph, index: RelationIndex, a: Id)
    requires index.Indexes(g.relations) && |index.Targets("approves", a)| == 1
    ensures Approves(g, a, index.Targets("approves", a)[0])
  {
    var providers := index.Targets("approves", a);
    assert forall q :: q in providers <==> Related(g.relations, "approves", a, q);
    assert providers[0] in providers;
  }

  lemma Concluded(g: Graph, a: Id, provider: Id, capability: Id, scope: string, before: map<Classification, Id>,
                  after: map<Classification, Id>, covered: seq<Id>, codes: seq<Code>, more: seq<Code>, last: seq<Code>,
                  entry: Option<ApprovedProvider>)
    requires IsApproval(g, a) && Shaped(g, a, provider) && forall c :: c in covered <==> Covers(g, a, c)
    requires |codes| == 0 <==> Closed(g.objects[a].approval) && Owned(g, g.objects[a].approval)
    requires after.Keys == before.Keys + KeysOf(provider, g.objects[a].approval.scope, covered)
    requires |more| == 0 <==> AllClassifiable(g, provider, g.objects[a].approval.scope, before, covered)
    requires |last| == 0 <==> (Selected(g, a, capability, scope) ==> Implements(g, provider, capability))
    requires |last| == 0 ==> (entry.Some? <==> Selected(g, a, capability, scope))
    requires entry.Some? && Related(g.relations, "provides", provider, capability) ==>
               IsEntry(g, capability, scope, entry.value) && entry.value.approvalId == a
    requires Selected(g, a, capability, scope) ==> capability in covered
    ensures Examined(g, a, capability, scope, before, after, codes + more + last, entry)
  {
    hide IsEntry, Selected, Implements, Closed, Owned;
    KeysClassified(g, a, provider, before, covered);
    assert Sound(g, a, capability, scope) <==> InOrder(g, a, provider, capability, scope);
    hide Shaped, Approves, Related, Sound, Classifies;
    var keys := KeysOf(provider, g.objects[a].approval.scope, covered);
    assert (forall c :: c in covered ==> (provider, c, g.objects[a].approval.scope) !in before)
      <==> forall key :: key in keys ==> key !in before;
  }

  lemma NotOneProvider(g: Graph, index: RelationIndex, a: Id)
    requires index.Indexes(g.relations) && |index.Targets("approves", a)| != 1
    ensures forall p :: !Approves(g, a, p)
  {
    var providers := index.Targets("approves", a);
    forall p
      ensures !Approves(g, a, p)
    {
      assert forall q :: q in providers <==> Related(g.relations, "approves", a, q);
      if Approves(g, a, p) {
        assert p in providers;
        assert |providers| > 1 ==> providers[0] in providers && providers[1] in providers;
        LessIsOrder(p, p, p);
      }
    }
  }

  lemma SelectedCovers(g: Graph, a: Id, capability: Id, scope: string, covered: seq<Id>)
    requires forall c :: c in covered <==> Covers(g, a, c)
    ensures Selected(g, a, capability, scope) ==> capability in covered
  {
  }

  lemma KeysClassified(g: Graph, a: Id, provider: Id, before: map<Classification, Id>, covered: seq<Id>)
    requires IsApproval(g, a) && Shaped(g, a, provider) && forall c :: c in covered <==> Covers(g, a, c)
    ensures forall key :: Classifies(g, a, key) <==>
              key in KeysOf(provider, g.objects[a].approval.scope, covered)
    ensures forall p :: Approves(g, a, p) ==> p == provider
  {
  }

  // ---------- the answer ----------

  predicate Before(x: ApprovedProvider, y: ApprovedProvider) {
    if x.providerId == y.providerId then Less(x.approvalId, y.approvalId) else Less(x.providerId, y.providerId)
  }

  ghost predicate StrictlyByProvider(s: seq<ApprovedProvider>) {
    forall i, j :: 0 <= i < j < |s| ==> Less(s[i].providerId, s[j].providerId)
  }

  function Place(s: seq<ApprovedProvider>, x: ApprovedProvider): (r: seq<ApprovedProvider>)
    requires StrictlyByProvider(s) && forall y :: y in s ==> y.providerId != x.providerId
    ensures StrictlyByProvider(r) && forall y :: y in r <==> y == x || y in s
  {
    if s == [] then [x]
    else if Before(s[0], x) then
      var rest := Place(s[1..], x);
      assert forall y :: y in rest ==> Less(s[0].providerId, y.providerId);
      [s[0]] + rest
    else
      LessIsOrder(s[0].providerId, x.providerId, s[0].providerId);
      assert forall i :: 0 <= i < |s| ==> Less(x.providerId, s[i].providerId) by {
        forall i | 0 <= i < |s|
          ensures Less(x.providerId, s[i].providerId)
        {
          LessIsOrder(x.providerId, s[0].providerId, s[i].providerId);
        }
      }
      [x] + s
  }

  ghost predicate DifferentProviders(s: seq<ApprovedProvider>) {
    s == [] || ((forall x :: x in s[1..] ==> x.providerId != s[0].providerId) && DifferentProviders(s[1..]))
  }

  /** Sorts by provider, then by approval. */
  function SortedByProvider(s: seq<ApprovedProvider>): (r: seq<ApprovedProvider>)
    requires DifferentProviders(s)
    ensures StrictlyByProvider(r) && forall x :: x in r <==> x in s
  {
    if s == [] then [] else Place(SortedByProvider(s[1..]), s[0])
  }

  /** The entries of the selected approvals among these. */
  ghost predicate Entries(g: Graph, capability: Id, scope: string, done: set<Id>, providers: seq<ApprovedProvider>) {
    && (forall x :: x in providers ==> x.approvalId in done && IsEntry(g, capability, scope, x))
    && (forall a :: a in done && Selected(g, a, capability, scope) ==> exists x :: x in providers && x.approvalId == a)
    && (forall i, j :: 0 <= i < j < |providers| ==> providers[i].approvalId != providers[j].approvalId)
  }

  /** The classifications filed so far. */
  ghost predicate FiledAll(g: Graph, done: set<Id>, filed: map<Classification, Id>) {
    forall key :: key in filed <==> exists a :: a in done && Classifies(g, a, key)
  }

  /** The query's state after these approvals. */
  ghost predicate Going(g: Graph, capability: Id, scope: string, done: set<Id>, codes: seq<Code>,
                        filed: map<Classification, Id>, providers: seq<ApprovedProvider>)
  {
    && (|codes| == 0 <==> AllSound(g, done, capability, scope) && NoDuplicates(g, done))
    && (|codes| == 0 ==> FiledAll(g, done, filed) && Entries(g, capability, scope, done, providers))
  }

  lemma SkipOther(g: Graph, capability: Id, scope: string, done: set<Id>, codes: seq<Code>,
                  filed: map<Classification, Id>, providers: seq<ApprovedProvider>, a: Id)
    requires Going(g, capability, scope, done, codes, filed, providers) && !IsApproval(g, a)
    ensures Going(g, capability, scope, done + {a}, codes, filed, providers)
  {
    hide Shaped, Covers, Sound, IsEntry;
    assert forall key :: !Classifies(g, a, key);
    assert !Selected(g, a, capability, scope);
    assert FiledAll(g, done, filed) ==> FiledAll(g, done + {a}, filed);
  }

  lemma NoDuplicatesMore(g: Graph, done: set<Id>, a: Id)
    requires a !in done
    ensures NoDuplicates(g, done + {a}) <==>
            NoDuplicates(g, done)
            && forall key :: Classifies(g, a, key) ==> !exists b :: b in done && Classifies(g, b, key)
  {
    hide Classifies;
  }

  lemma SoundMore(g: Graph, capability: Id, scope: string, done: set<Id>, a: Id)
    requires IsApproval(g, a)
    ensures AllSound(g, done + {a}, capability, scope) <==>
            AllSound(g, done, capability, scope) && Sound(g, a, capability, scope)
  {
    hide Sound;
  }

  lemma EntriesMore(g: Graph, capability: Id, scope: string, done: set<Id>, providers: seq<ApprovedProvider>, a: Id,
                    entry: Option<ApprovedProvider>)
    requires Entries(g, capability, scope, done, providers) && a !in done
    requires entry.Some? <==> Selected(g, a, capability, scope)
    requires entry.Some? ==> IsEntry(g, capability, scope, entry.value) && entry.value.approvalId == a
    ensures Entries(g, capability, scope, done + {a}, if entry.Some? then providers + [entry.value] else providers)
  {
    hide IsEntry, Selected;
    var more := if entry.Some? then providers + [entry.value] else providers;
    forall b | b in done + {a} && Selected(g, b, capability, scope)
      ensures exists x :: x in more && x.approvalId == b
    {
      if b == a {
        assert entry.value in more;
      } else {
        var x :| x in providers && x.approvalId == b;
        assert x in more;
      }
    }
  }

  lemma OneMoreApproval(g: Graph, capability: Id, scope: string, done: set<Id>, codes: seq<Code>,
                        filed: map<Classification, Id>, providers: seq<ApprovedProvider>, a: Id,
                        after: map<Classification, Id>, more: seq<Code>, entry: Option<ApprovedProvider>)
    requires Going(g, capability, scope, done, codes, filed, providers) && IsApproval(g, a) && a !in done
    requires Examined(g, a, capability, scope, filed, after, more, entry)
    ensures Going(g, capability, scope, done + {a}, codes + more, after,
                  if entry.Some? then providers + [entry.value] else providers)
  {
    hide Sound, Classifies, AllSound, NoDuplicates, Entries, IsEntry, Selected;
    NoDuplicatesMore(g, done, a);
    SoundMore(g, capability, scope, done, a);
    if |codes| == 0 && |more| == 0 {
      EntriesMore(g, capability, scope, done, providers, a, entry);
    }
  }

  /** No provider occurs in two entries, as both would classify it alike. */
  lemma OneEntryPerProvider(g: Graph, capability: Id, scope: string, providers: seq<ApprovedProvider>,
                            x: ApprovedProvider, y: ApprovedProvider)
    requires AllSound(g, g.objects.Keys, capability, scope) && NoDuplicates(g, g.objects.Keys)
    requires IsEntry(g, capability, scope, x) && IsEntry(g, capability, scope, y) && x.providerId == y.providerId
    ensures x.approvalId == y.approvalId
  {
    hide AllSound, NoDuplicates;
    assert Classifies(g, x.approvalId, (x.providerId, capability, scope)) by {
      SoundIsShaped(g, x.approvalId, capability, scope, x.providerId);
    }
    assert Classifies(g, y.approvalId, (x.providerId, capability, scope)) by {
      SoundIsShaped(g, y.approvalId, capability, scope, y.providerId);
    }
    NotTwo(g, x.approvalId, y.approvalId, (x.providerId, capability, scope));
  }

  lemma SoundIsShaped(g: Graph, a: Id, capability: Id, scope: string, p: Id)
    requires AllSound(g, g.objects.Keys, capability, scope) && IsApproval(g, a) && Approves(g, a, p)
    ensures Shaped(g, a, p)
  {
    hide Closed, Owned, Selected, Implements;
    assert Sound(g, a, capability, scope);
    var q :| InOrder(g, a, q, capability, scope);
    assert Approves(g, a, q);
  }

  lemma NotTwo(g: Graph, a: Id, b: Id, key: Classification)
    requires NoDuplicates(g, g.objects.Keys) && Classifies(g, a, key) && Classifies(g, b, key)
    ensures a == b
  {
    assert IsApproval(g, a) && IsApproval(g, b);
  }

  lemma {:induction false} AllDifferent(g: Graph, capability: Id, scope: string, providers: seq<ApprovedProvider>)
    requires AllSound(g, g.objects.Keys, capability, scope) && NoDuplicates(g, g.objects.Keys)
    requires Entries(g, capability, scope, g.objects.Keys, providers)
    ensures DifferentProviders(providers)
  {
    hide AllSound, NoDuplicates, IsEntry, Selected, Entries;
    forall i, j | 0 <= i < j < |providers|
      ensures providers[i].providerId != providers[j].providerId
    {
      EntryAt(g, capability, scope, providers, i, j);
      if providers[i].providerId == providers[j].providerId {
        OneEntryPerProvider(g, capability, scope, providers, providers[i], providers[j]);
        assert false;
      }
    }
    PairwiseDifferent(providers);
  }

  lemma EntryAt(g: Graph, capability: Id, scope: string, providers: seq<ApprovedProvider>, i: nat, j: nat)
    requires Entries(g, capability, scope, g.objects.Keys, providers) && i < j < |providers|
    ensures IsEntry(g, capability, scope, providers[i]) && IsEntry(g, capability, scope, providers[j])
    ensures providers[i].approvalId != providers[j].approvalId
  {
    hide IsEntry, Selected;
    assert providers[i] in providers && providers[j] in providers;
  }

  lemma {:induction false} PairwiseDifferent(providers: seq<ApprovedProvider>)
    requires forall i, j :: 0 <= i < j < |providers| ==> providers[i].providerId != providers[j].providerId
    ensures DifferentProviders(providers)
  {
    if providers != [] {
      PairwiseDifferent(providers[1..]);
    }
  }

  /** `Crashed` is the panic on an attribute that is not there. */
  datatype Answer = Approved(providers: seq<ApprovedProvider>) | Refused(codes: seq<Code>) | Crashed

  /** The query gets as far as the approvals. */
  predicate Posed(g: Graph, capability: Id, scope: string) {
    scope in APPROVAL_SCOPES && capability in g.objects && g.objects[capability].Capability?
  }

  lemma CrashingIsUnsound(g: Graph, a: Id, capability: Id, scope: string)
    requires Crashing(g, a, capability, scope)
    ensures a in g.objects && !AllSound(g, g.objects.Keys, capability, scope)
  {
    hide Selected, Closed, Owned;
    assert !Sound(g, a, capability, scope);
  }

  /** Answers exactly the answerable queries, with the entries of exactly the selected approvals, one
      for each provider, in ascending order of providers; and crashes exactly when a selected approval
      of one provider meets a capability without contract, or with an implemented one that is none. */
  method QueryApprovedProviders(g: Graph, capability: Id, scope: string) returns (answer: Answer)
    ensures answer.Crashed? <==>
            Posed(g, capability, scope) && exists a :: Crashing(g, a, capability, scope)
    ensures answer.Approved? <==> Answerable(g, capability, scope)
    ensures answer.Approved? ==>
              && StrictlyByProvider(answer.providers)
              && (forall x :: x in answer.providers ==> IsEntry(g, capability, scope, x))
              && (forall a :: Selected(g, a, capability, scope) ==>
                    exists x :: x in answer.providers && x.approvalId == a)
  {
    hide AllSound, NoDuplicates, Going, Entries, IsEntry, Examined, StrictlyByProvider, Crashing;
    var codes: seq<Code> := [];
    if scope !in APPROVAL_SCOPES {
      codes := codes + [InvalidScope];
    }
    if capability !in g.objects {
      codes := codes + [CapabilityUnresolved];
    } else if !g.objects[capability].Capability? {
      codes := codes + [TargetNotCapability];
    }
    if |codes| > 0 {
      return Refused(codes);
    }
    var index := new RelationIndex(g.relations);
    var providers: seq<ApprovedProvider> := [];
    var classifications: map<Classification, Id> := map[];
    StartGoing(g, capability, scope);
    ghost var done: set<Id> := {};
    var rest := g.objects.Keys;
    while rest != {}
      invariant rest <= g.objects.Keys && done == g.objects.Keys - rest
      invariant Going(g, capability, scope, done, codes, classifications, providers)
      invariant forall a :: a in done ==> !Crashing(g, a, capability, scope)
    {
      var a :| a in rest;
      rest := rest - {a};
      if !IsApproval(g, a) {
        NotCrashing(g, a, capability, scope);
        SkipOther(g, capability, scope, done, codes, classifications, providers, a);
      } else {
        var filed, more, entry, crashed := Examine(g, index, a, capability, scope, classifications);
        if crashed {
          CrashingIsUnsound(g, a, capability, scope);
          return Crashed;
        }
        OneMoreApproval(g, capability, scope, done, codes, classifications, providers, a, filed, more, entry);
        classifications, codes := filed, codes + more;
        providers := if entry.Some? then providers + [entry.value] else providers;
      }
      done := done + {a};
    }
    assert done == g.objects.Keys;
    forall a
      ensures !Crashing(g, a, capability, scope)
    {
      NotCrashing(g, a, capability, scope);
    }
    AllGone(g, capability, scope, codes, classifications, providers);
    if |codes| > 0 {
      return Refused(codes);
    }
    AllDifferent(g, capability, scope, providers);
    EntriesMean(g, capability, scope, providers);
    return Approved(SortedByProvider(providers));
  }

  lemma NotCrashing(g: Graph, a: Id, capability: Id, scope: string)
    ensures Crashing(g, a, capability, scope) ==> IsApproval(g, a)
  {
  }

  lemma StartGoing(g: Graph, capability: Id, scope: string)
    ensures Going(g, capability, scope, {}, [], map[], [])
  {
  }

  lemma AllGone(g: Graph, capability: Id, scope: string, codes: seq<Code>, filed: map<Classification, Id>,
                providers: seq<ApprovedProvider>)
    requires Going(g, capability, scope, g.objects.Keys, codes, filed, providers)
    ensures |codes| == 0 <==> AllSound(g, g.objects.Keys, capability, scope) && NoDuplicates(g, g.objects.Keys)
    ensures |codes| == 0 ==> Entries(g, capability, scope, g.objects.Keys, providers)
  {
  }

  lemma EntriesMean(g: Graph, capability: Id, scope: string, providers: seq<ApprovedProvider>)
    requires Entries(g, capability, scope, g.objects.Keys, providers)
    ensures forall x :: x in providers ==> IsEntry(g, capability, scope, x)
    ensures forall a :: Selected(g, a, capability, scope) ==> exists x :: x in providers && x.approvalId == a
  {
    hide IsEntry;
  }

  /** An entry is determined by its approval: the answer says nothing it does not have to. */
  lemma EntryIsDetermined(g: Graph, capability: Id, scope: string, x: ApprovedProvider, y: ApprovedProvider)
    requires IsEntry(g, capability, scope, x) && IsEntry(g, capability, scope, y) && x.approvalId == y.approvalId
    ensures x == y
  {
  }

  // ---------- compiled graphs on which the query crashes ----------

  const APPROVAL := Approval("approved", "project", "internal", "example.team.owners", ">=1", "low", "review")

  /** One approved provider of one capability, which names this contract. */
  function OneApproval(contract: Option<Id>): Graph {
    Graph.Graph(map["example.capability.search" := Capability(contract), "example.capability.index" := Capability(None),
              "example.provider.engine" := Provider, "example.approval.engine" := ProviderApproval(APPROVAL),
              "example.team.owners" := Organization],
          map["example.relation.approves" := Relation("approves", "example.approval.engine", "example.provider.engine"),
              "example.relation.covers" := Relation("covers", "example.approval.engine", "example.capability.search"),
              "example.relation.provides" :=
                Relation("provides", "example.provider.engine", "example.capability.search"),
              "example.relation.implements" :=
                Relation("implements", "example.provider.engine", "example.capability.index")])
  }

  lemma OneApprovalIsSelected(contract: Option<Id>)
    requires contract.Some? ==> contract.value in OneApproval(contract).objects
    ensures var g := OneApproval(contract);
            && Compiled(g) && Posed(g, "example.capability.search", "project")
            && Shaped(g, "example.approval.engine", "example.provider.engine")
            && Selected(g, "example.approval.engine", "example.capability.search", "project")
            && Related(g.relations, "implements", "example.provider.engine", "example.capability.index")
  {
    var g := OneApproval(contract);
    assert g.relations["example.relation.approves"] in g.relations.Values;
    assert g.relations["example.relation.covers"] in g.relations.Values;
    assert g.relations["example.relation.implements"] in g.relations.Values;
    assert Covers(g, "example.approval.engine", "example.capability.search");
  }

  /** A capability need not name a contract; a query for an approved provider of it crashes. */
  lemma MissingContractCrashes() returns (g: Graph, a: Id, capability: Id)
    ensures Compiled(g) && Posed(g, capability, "project") && g.objects[capability].contract.None?
    ensures Crashing(g, a, capability, "project")
  {
    g, a, capability := OneApproval(None), "example.approval.engine", "example.capability.search";
    OneApprovalIsSelected(None);
    hide Shaped, Selected;
    assert Unreadable(g, "example.provider.engine", capability);
  }

  /** What it names may be another capability, which a provider can implement but which has no version. */
  lemma CapabilityAsContractCrashes() returns (g: Graph, a: Id, capability: Id)
    ensures Compiled(g) && Posed(g, capability, "project") && g.objects[capability].contract.Some?
    ensures Crashing(g, a, capability, "project")
  {
    var contract: Option<Id> := Some("example.capability.index");
    g, a, capability := OneApproval(contract), "example.approval.engine", "example.capability.search";
    OneApprovalIsSelected(contract);
    hide Shaped, Selected, Related;
    assert Unreadable(g, "example.provider.engine", capability);
  }
}

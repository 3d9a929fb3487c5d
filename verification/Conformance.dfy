/** Conformance of observed facts to a governing graph: the evaluator, the guard that looks at its
    results again, and the exceptions applied in between. */
module Conformance {
  import opened SourceGraphs
  import opened Texts
  import opened Timestamps

  type Id = string

  datatype Severity = Error | Warning | Advisory

  datatype State = Matched | PartialMatch | Absent | Conflicting | Unexpected | Unobserved | Ambiguous

  datatype Mode = Deterministic | Inferred

  datatype CoverageStatus = CompleteCoverage | PartialCoverage | UnsupportedCoverage | UnknownCoverage

  datatype Cardinality = ExactlyOne | AtMostOne | OneOrMore | AnyNumber {
    predicate Admits(count: nat) {
      match this
      case ExactlyOne => count == 1
      case AtMostOne => count <= 1
      case OneOrMore => count >= 1
      case AnyNumber => true
    }
    predicate Required() {
      ExactlyOne? || OneOrMore?
    }
  }

  datatype Fact = Fact(
    target: Id, observedKind: string, bindingId: Option<Id>, mode: Mode, coverageIds: set<Id>)

  datatype Coverage = Coverage(feature: string, status: CoverageStatus)

  datatype Observation = Observation(facts: map<Id, Fact>, coverage: map<Id, Coverage>)

  datatype Binding = Binding(target: Id, adapter: string, cardinality: Cardinality)

  /** `objects` gives kinds, `constraints` the declaring modules. */
  datatype GoverningGraph = GoverningGraph(
    objects: map<Id, string>, relations: set<Id>, bindings: map<Id, Binding>, constraints: map<Id, Id>)

  /** What compilation guarantees: no id is declared twice, and bindings target objects. */
  predicate Compiled(g: GoverningGraph) {
    && g.objects.Keys !! g.bindings.Keys && g.objects.Keys !! g.constraints.Keys && g.objects.Keys !! g.relations
    && g.bindings.Keys !! g.constraints.Keys && g.bindings.Keys !! g.relations && g.constraints.Keys !! g.relations
    && forall b :: b in g.bindings ==> g.bindings[b].target in g.objects
  }

  /** The ids of the facts and of the coverage a result rests on. */
  datatype Evidence = Evidence(factIds: set<Id>, coverageIds: set<Id>)

  datatype Dispositions = Dispositions(
    applied: seq<Id>, stale: seq<Id>, expired: seq<Id>, irrelevant: seq<Id>, rejected: seq<Id>)

  const NO_DISPOSITIONS := Dispositions([], [], [], [], [])

  datatype Result = Result(
    declarationId: Id, state: State, severity: Severity, reason: string, evidence: Evidence,
    exceptions: Dispositions)

  /** The results by the id they are about; the source adds one fixed suffix to every id. */
  type Results = map<Id, Result>

  // ---------- the evaluator ----------

  predicate AllComplete(o: Observation, coverageIds: set<Id>) {
    coverageIds != {} && forall c :: c in coverageIds ==> c in o.coverage && o.coverage[c].status.CompleteCoverage?
  }

  predicate AllDeterministic(o: Observation, factIds: set<Id>) {
    forall f :: f in factIds ==> f in o.facts && o.facts[f].mode.Deterministic?
  }

  function FactsOf(o: Observation, target: Id, binding: Id): set<Id> {
    set f | f in o.facts && o.facts[f].target == target
            && (o.facts[f].bindingId.Some? ==> o.facts[f].bindingId.value == binding)
  }

  function CoverageOf(o: Observation, adapter: string): set<Id> {
    set c | c in o.coverage && o.coverage[c].feature == adapter
  }

  function CoverageFor(o: Observation, factIds: set<Id>): set<Id> {
    set f, c | f in factIds && f in o.facts && c in o.facts[f].coverageIds && c in o.coverage :: c
  }

  function EvaluateBinding(id: Id, b: Binding, expectedKind: string, o: Observation): Result {
    var facts := FactsOf(o, b.target, id);
    var coverage := CoverageOf(o, b.adapter);
    var evidence := Evidence(facts, coverage);
    var deterministic := forall f :: f in facts ==> o.facts[f].mode.Deterministic?;
    var complete := coverage != {} && forall c :: c in coverage ==> o.coverage[c].status.CompleteCoverage?;
    var partial := exists c :: c in coverage && o.coverage[c].status.PartialCoverage?;
    var unsupported := exists c :: c in coverage && (o.coverage[c].status.UnsupportedCoverage?
                                                     || o.coverage[c].status.UnknownCoverage?);
    var kindConflict := exists f :: f in facts && o.facts[f].observedKind != expectedKind;
    if exists f :: f in facts && o.facts[f].mode.Inferred? then
      Result(b.target, Ambiguous, Advisory, "evidence.inferred-review-only", evidence, NO_DISPOSITIONS)
    else if coverage == {} || unsupported then
      Result(b.target, Unobserved, Advisory, "coverage.unsupported", evidence, NO_DISPOSITIONS)
    else if partial then
      Result(b.target, if facts == {} then Unobserved else PartialMatch, Advisory, "coverage.partial", evidence,
             NO_DISPOSITIONS)
    else if complete && deterministic && kindConflict then
      Result(b.target, Conflicting, Error, "binding.kind-conflict", evidence, NO_DISPOSITIONS)
    else if complete && deterministic && !b.cardinality.Admits(|facts|) then
      if b.cardinality.Required() && facts == {} then
        Result(b.target, Absent, Error, "binding.required-absent", evidence, NO_DISPOSITIONS)
      else
        Result(b.target, Conflicting, Error, "binding.cardinality-conflict", evidence, NO_DISPOSITIONS)
    else
      Result(b.target, Matched, Advisory, "binding.exact-match", evidence, NO_DISPOSITIONS)
  }

  function EvaluateUnboundObject(id: Id, o: Observation): Result {
    var facts := set f | f in o.facts && o.facts[f].target == id;
    var evidence := Evidence(facts, CoverageFor(o, facts));
    if facts == {} then Result(id, Unobserved, Advisory, "binding.missing", evidence, NO_DISPOSITIONS)
    else Result(id, Ambiguous, Advisory, "binding.missing-for-evidence", evidence, NO_DISPOSITIONS)
  }

  function EvaluateUnobservedConstraint(id: Id): Result {
    Result(id, Unobserved, Advisory, "coverage.unsupported", Evidence({}, {}), NO_DISPOSITIONS)
  }

  function EvaluateUnexpected(id: Id, o: Observation): Result
    requires id in o.facts
  {
    var coverage := CoverageFor(o, {id});
    var evidence := Evidence({id}, coverage);
    var complete := coverage != {} && forall c :: c in coverage ==> o.coverage[c].status.CompleteCoverage?;
    if o.facts[id].mode.Deterministic? && complete then
      Result(o.facts[id].target, Unexpected, Error, "declaration.unexpected", evidence, NO_DISPOSITIONS)
    else
      Result(o.facts[id].target, Ambiguous, Advisory, "declaration.possibly-unexpected", evidence, NO_DISPOSITIONS)
  }

  predicate Declared(g: GoverningGraph, id: Id) {
    id in g.objects || id in g.relations || id in g.constraints
  }

  predicate IsBound(g: GoverningGraph, id: Id) {
    exists b :: b in g.bindings && g.bindings[b].target == id
  }

  /** What the results are about: undeclared facts, bindings, unbound objects and constraints. */
  datatype Subject = UndeclaredFact | BindingOf | UnboundObject | Constraint

  predicate IsAbout(g: GoverningGraph, o: Observation, id: Id, subject: Subject) {
    match subject
    case UndeclaredFact => id in o.facts && !Declared(g, o.facts[id].target)
    case BindingOf => id in g.bindings
    case UnboundObject => id in g.objects && !IsBound(g, id)
    case Constraint => id in g.constraints
  }

  function Expected(g: GoverningGraph, o: Observation, id: Id, subject: Subject): Result
    requires Compiled(g) && IsAbout(g, o, id, subject)
  {
    match subject
    case UndeclaredFact => EvaluateUnexpected(id, o)
    case BindingOf => EvaluateBinding(id, g.bindings[id], g.objects[g.bindings[id].target], o)
    case UnboundObject => EvaluateUnboundObject(id, o)
    case Constraint => EvaluateUnobservedConstraint(id)
  }

  /** Results by id for these subjects; a fact's result replaces any other of the same id. */
  ghost predicate Inserted(g: GoverningGraph, o: Observation, results: Results, done: set<(Id, Subject)>)
    requires Compiled(g) && forall x :: x in done ==> IsAbout(g, o, x.0, x.1)
  {
    && (forall id :: id in results ==> exists s :: (id, s) in done)
    && (forall id, s :: (id, s) in done ==> id in results)
    && (forall id, s :: (id, s) in done && (s.UndeclaredFact? || (id, UndeclaredFact) !in done) ==>
          results[id] == Expected(g, o, id, s))
  }

  lemma InsertOne(g: GoverningGraph, o: Observation, results: Results, done: set<(Id, Subject)>, id: Id, s: Subject)
    requires Compiled(g) && forall x :: x in done ==> IsAbout(g, o, x.0, x.1)
    requires Inserted(g, o, results, done) && IsAbout(g, o, id, s)
    requires s.UndeclaredFact? || (id, UndeclaredFact) !in done
    ensures Inserted(g, o, results[id := Expected(g, o, id, s)], done + {(id, s)})
  {
    hide Expected;
  }

  /** Every subject has a result: its own, unless an undeclared fact has the same id. */
  ghost predicate Evaluated(g: GoverningGraph, o: Observation, results: Results)
    requires Compiled(g)
  {
    && (forall id :: id in results <==> exists s :: IsAbout(g, o, id, s))
    && (forall id, s :: IsAbout(g, o, id, s) && (s.UndeclaredFact? || !IsAbout(g, o, id, UndeclaredFact)) ==>
          id in results && results[id] == Expected(g, o, id, s))
  }

  method Evaluate(g: GoverningGraph, o: Observation) returns (results: Results)
    requires Compiled(g)
    ensures Evaluated(g, o, results)
  {
    hide Expected, Inserted, Compiled;
    results := map[];
    ghost var done: set<(Id, Subject)> := {};
    StartInserting(g, o);
    var evaluatedTargets: set<Id> := {};
    var rest := g.bindings.Keys;
    while rest != {}
      invariant rest <= g.bindings.Keys
      invariant evaluatedTargets == set b | b in g.bindings.Keys - rest :: g.bindings[b].target
      invariant forall x :: x in done <==> x.1.BindingOf? && x.0 in g.bindings.Keys - rest
      invariant Inserted(g, o, results, done)
    {
      var id :| id in rest;
      rest := rest - {id};
      TargetIsObject(g, id);
      InsertOne(g, o, results, done, id, BindingOf);
      BindingExpected(g, o, id);
      evaluatedTargets := evaluatedTargets + {g.bindings[id].target};
      results := results[id := EvaluateBinding(id, g.bindings[id], g.objects[g.bindings[id].target], o)];
      done := done + {(id, BindingOf)};
    }
    rest := g.objects.Keys;
    while rest != {}
      invariant rest <= g.objects.Keys
      invariant forall x :: x in done <==>
                  IsAbout(g, o, x.0, x.1) && (x.1.BindingOf? || (x.1.UnboundObject? && x.0 !in rest))
      invariant Inserted(g, o, results, done)
    {
      var id :| id in rest;
      rest := rest - {id};
      if id !in evaluatedTargets {
        InsertOne(g, o, results, done, id, UnboundObject);
        OtherExpected(g, o, id);
        results := results[id := EvaluateUnboundObject(id, o)];
        done := done + {(id, UnboundObject)};
      }
    }
    rest := g.constraints.Keys;
    while rest != {}
      invariant rest <= g.constraints.Keys
      invariant forall x :: x in done <==>
                  IsAbout(g, o, x.0, x.1) && !x.1.UndeclaredFact? && (x.1.Constraint? ==> x.0 !in rest)
      invariant Inserted(g, o, results, done)
    {
      var id :| id in rest;
      rest := rest - {id};
      InsertOne(g, o, results, done, id, Constraint);
      OtherExpected(g, o, id);
      results := results[id := EvaluateUnobservedConstraint(id)];
      done := done + {(id, Constraint)};
    }
    rest := o.facts.Keys;
    while rest != {}
      invariant rest <= o.facts.Keys
      invariant forall x :: x in done <==>
                  IsAbout(g, o, x.0, x.1) && (x.1.UndeclaredFact? ==> x.0 !in rest)
      invariant Inserted(g, o, results, done)
    {
      var id :| id in rest;
      rest := rest - {id};
      if !Declared(g, o.facts[id].target) {
        InsertOne(g, o, results, done, id, UndeclaredFact);
        OtherExpected(g, o, id);
        results := results[id := EvaluateUnexpected(id, o)];
        done := done + {(id, UndeclaredFact)};
      }
    }
    AllInserted(g, o, results, done);
  }

  lemma StartInserting(g: GoverningGraph, o: Observation)
    requires Compiled(g)
    ensures Inserted(g, o, map[], {})
  {
  }

  lemma TargetIsObject(g: GoverningGraph, id: Id)
    requires Compiled(g) && id in g.bindings
    ensures g.bindings[id].target in g.objects
  {
  }

  lemma BindingExpected(g: GoverningGraph, o: Observation, id: Id)
    requires Compiled(g) && id in g.bindings
    ensures Expected(g, o, id, BindingOf) == EvaluateBinding(id, g.bindings[id], g.objects[g.bindings[id].target], o)
  {
  }

  lemma OtherExpected(g: GoverningGraph, o: Observation, id: Id)
    requires Compiled(g)
    ensures IsAbout(g, o, id, UnboundObject) ==> Expected(g, o, id, UnboundObject) == EvaluateUnboundObject(id, o)
    ensures IsAbout(g, o, id, Constraint) ==> Expected(g, o, id, Constraint) == EvaluateUnobservedConstraint(id)
    ensures IsAbout(g, o, id, UndeclaredFact) ==> Expected(g, o, id, UndeclaredFact) == EvaluateUnexpected(id, o)
  {
  }

  lemma AllInserted(g: GoverningGraph, o: Observation, results: Results, done: set<(Id, Subject)>)
    requires Compiled(g) && forall x :: x in done <==> IsAbout(g, o, x.0, x.1)
    requires Inserted(g, o, results, done)
    ensures Evaluated(g, o, results)
  {
    hide Expected, IsAbout;
    forall id, s | IsAbout(g, o, id, s)
      ensures (id, s) in done
    {
      assert IsAbout(g, o, (id, s).0, (id, s).1);
    }
    assert forall id :: (id, UndeclaredFact) in done ==> IsAbout(g, o, (id, UndeclaredFact).0, (id, UndeclaredFact).1);
  }

  // ---------- hard failures rest on complete, deterministic evidence ----------

  /** Complete coverage and deterministic facts contradict the binding's kind or cardinality. */
  predicate Contradicted(id: Id, b: Binding, expectedKind: string, o: Observation) {
    var facts := FactsOf(o, b.target, id);
    && AllComplete(o, CoverageOf(o, b.adapter)) && AllDeterministic(o, facts)
    && ((exists f :: f in facts && o.facts[f].observedKind != expectedKind) || !b.cardinality.Admits(|facts|))
  }

  /** The fact is deterministic and its coverage complete. */
  predicate Established(id: Id, o: Observation)
    requires id in o.facts
  {
    o.facts[id].mode.Deterministic? && AllComplete(o, CoverageFor(o, {id}))
  }

  /** A binding fails exactly when complete coverage and deterministic facts contradict it. */
  lemma BindingFailsExactly(id: Id, b: Binding, expectedKind: string, o: Observation)
    ensures EvaluateBinding(id, b, expectedKind, o).severity.Error? <==> Contradicted(id, b, expectedKind, o)
  {
  }

  /** A binding matches exactly when complete coverage and deterministic facts confirm it. */
  lemma BindingMatchesExactly(id: Id, b: Binding, expectedKind: string, o: Observation)
    ensures var facts, r := FactsOf(o, b.target, id), EvaluateBinding(id, b, expectedKind, o);
            r.state.Matched? <==>
              && AllComplete(o, CoverageOf(o, b.adapter)) && AllDeterministic(o, facts)
              && (forall f :: f in facts ==> o.facts[f].observedKind == expectedKind) && b.cardinality.Admits(|facts|)
  {
  }

  /** The guard's demand on one result. */
  predicate Backed(o: Observation, r: Result) {
    && (r.severity.Error? && (r.state.Absent? || r.state.Conflicting? || r.state.Unexpected?) ==>
          AllComplete(o, r.evidence.coverageIds)
          && (r.state.Absent? || AllDeterministic(o, r.evidence.factIds)))
    && (r.state.Matched? ==> forall f :: f in r.evidence.factIds && f in o.facts ==> !o.facts[f].mode.Inferred?)
  }

  lemma ExpectedIsBacked(g: GoverningGraph, o: Observation, id: Id, s: Subject)
    requires Compiled(g) && IsAbout(g, o, id, s)
    ensures Backed(o, Expected(g, o, id, s))
    ensures Expected(g, o, id, s).exceptions == NO_DISPOSITIONS
    ensures Expected(g, o, id, s).severity.Error? ==>
              var state := Expected(g, o, id, s).state; state.Absent? || state.Conflicting? || state.Unexpected?
  {
  }

  datatype Code = HardGateWithoutEvidence | InferredCannotMatch

  /** The guard: one code for each broken demand. */
  method ValidateEvidence(results: Results, o: Observation) returns (codes: seq<(Id, Code)>)
    ensures |codes| == 0 <==> forall id :: id in results ==> Backed(o, results[id])
    ensures forall c :: c in codes ==> c.0 in results && !Backed(o, results[c.0])
  {
    codes := [];
    var rest := results.Keys;
    while rest != {}
      invariant rest <= results.Keys
      invariant |codes| == 0 <==> forall id :: id in results.Keys - rest ==> Backed(o, results[id])
      invariant forall c :: c in codes ==> c.0 in results && !Backed(o, results[c.0])
    {
      var id :| id in rest;
      rest := rest - {id};
      var r := results[id];
      var deterministic := AllDeterministic(o, r.evidence.factIds);
      var complete := AllComplete(o, r.evidence.coverageIds);
      if r.severity.Error? && (r.state.Absent? || r.state.Conflicting? || r.state.Unexpected?)
         && (!complete || ((r.state.Conflicting? || r.state.Unexpected?) && !deterministic))
      {
        codes := codes + [(id, HardGateWithoutEvidence)];
      }
      if r.state.Matched? && exists f :: f in r.evidence.factIds && f in o.facts && o.facts[f].mode.Inferred? {
        codes := codes + [(id, InferredCannotMatch)];
      }
    }
  }

  // ---------- exceptions ----------

  datatype ExceptionDeclaration = ExceptionDeclaration(
    id: Id, affectedIds: set<Id>, scopeModule: Option<Id>, constraint: Option<(Id, nat)>, accepted: bool,
    granted: bool, governed: bool, baseClosureDigest: Option<string>, expiresAt: string)

  datatype Context = Context(
    constraintId: Id, constraintVersion: nat, declarationId: Id, declaringModule: Id, closureDigest: string,
    asOf: string)

  datatype Disposition = Applied | Stale | Expired | Irrelevant | Rejected

  predicate Affects(e: ExceptionDeclaration, c: Context) {
    c.declarationId in e.affectedIds
  }

  predicate InScope(e: ExceptionDeclaration, c: Context) {
    e.scopeModule == Some(c.declaringModule)
  }

  predicate NamesConstraint(e: ExceptionDeclaration, c: Context) {
    e.constraint == Some((c.constraintId, c.constraintVersion))
  }

  function EvaluateException(e: ExceptionDeclaration, c: Context): Option<Disposition> {
    var affected, scoped, matches := Affects(e, c), InScope(e, c), NamesConstraint(e, c);
    if !affected && !scoped && !matches then None
    else if !affected || !scoped || !matches then Some(Irrelevant)
    else if !e.accepted || !e.granted || !e.governed then Some(Rejected)
    else if e.baseClosureDigest != Some(c.closureDigest) then Some(Stale)
    else if !ValidTimestamp(c.asOf) || !ValidTimestamp(e.expiresAt) then Some(Rejected)
    else if !Less(c.asOf, e.expiresAt) then Some(Expired)
    else Some(Applied)
  }

  /** Everything but the time of evaluation speaks for the exception. */
  predicate Entitled(e: ExceptionDeclaration, c: Context) {
    && Affects(e, c) && InScope(e, c) && NamesConstraint(e, c) && e.accepted && e.granted && e.governed
    && e.baseClosureDigest == Some(c.closureDigest)
  }

  /** An entitled exception applies exactly before the moment of its expiry, and is expired from then
      on; the comparison of strings decides the order of moments. */
  lemma AppliesUntilExpiry(e: ExceptionDeclaration, c: Context)
    ensures EvaluateException(e, c) == Some(Applied) <==>
            Entitled(e, c) && ValidTimestamp(c.asOf) && ValidTimestamp(e.expiresAt)
            && Moment(c.asOf, SHAPE) < Moment(e.expiresAt, SHAPE)
    ensures EvaluateException(e, c) == Some(Expired) <==>
            Entitled(e, c) && ValidTimestamp(c.asOf) && ValidTimestamp(e.expiresAt)
            && Moment(e.expiresAt, SHAPE) <= Moment(c.asOf, SHAPE)
  {
    if ValidTimestamp(c.asOf) && ValidTimestamp(e.expiresAt) {
      OrderOfMoments(c.asOf, e.expiresAt, SHAPE);
    }
  }

  /** The ids of the exceptions with this disposition, in order. */
  function IdsWith(exceptions: seq<ExceptionDeclaration>, c: Context, d: Disposition): seq<Id> {
    if exceptions == [] then []
    else
      IdsWith(exceptions[..|exceptions| - 1], c, d)
      + if EvaluateException(exceptions[|exceptions| - 1], c) == Some(d) then [exceptions[|exceptions| - 1].id] else []
  }

  /** The ids of the exceptions that are listed as irrelevant, in order: those that do not fit, and those
      that would apply to what is advisory, to begin with or because an earlier one applied. */
  function IdleIds(exceptions: seq<ExceptionDeclaration>, c: Context, advisory: bool): seq<Id> {
    if exceptions == [] then []
    else
      var init, last := exceptions[..|exceptions| - 1], exceptions[|exceptions| - 1];
      IdleIds(init, c, advisory) + if IsIdle(init, c, advisory, EvaluateException(last, c)) then [last.id] else []
  }

  predicate IsIdle(earlier: seq<ExceptionDeclaration>, c: Context, advisory: bool, d: Option<Disposition>) {
    d == Some(Irrelevant) || (d == Some(Applied) && (advisory || IdsWith(earlier, c, Applied) != []))
  }

  ghost predicate Listed(r: Result, n: Dispositions, c: Context, exceptions: seq<ExceptionDeclaration>) {
    && n.stale == r.exceptions.stale + IdsWith(exceptions, c, Stale)
    && n.expired == r.exceptions.expired + IdsWith(exceptions, c, Expired)
    && n.rejected == r.exceptions.rejected + IdsWith(exceptions, c, Rejected)
    && n.irrelevant == r.exceptions.irrelevant + IdleIds(exceptions, c, r.severity.Advisory?)
  }

  ghost predicate Relaxed(r: Result, n: Result, applicable: seq<Id>) {
    && n == r.(severity := n.severity, exceptions := n.exceptions)
    && n.severity == (if applicable == [] then r.severity else Advisory)
    && n.exceptions.applied
         == r.exceptions.applied + if r.severity.Advisory? || applicable == [] then [] else [applicable[0]]
  }

  /** Every exception that concerns the result is listed once, under its disposition; of those that
      apply, the first lowers the severity and the others are irrelevant. */
  ghost predicate Disposed(r: Result, n: Result, c: Context, exceptions: seq<ExceptionDeclaration>) {
    Relaxed(r, n, IdsWith(exceptions, c, Applied)) && Listed(r, n.exceptions, c, exceptions)
  }

  function Dispose(r: Result, id: Id, d: Disposition): Result {
    match d
    case Applied =>
      if r.severity.Advisory? then r.(exceptions := r.exceptions.(irrelevant := r.exceptions.irrelevant + [id]))
      else r.(severity := Advisory, exceptions := r.exceptions.(applied := r.exceptions.applied + [id]))
    case Stale => r.(exceptions := r.exceptions.(stale := r.exceptions.stale + [id]))
    case Expired => r.(exceptions := r.exceptions.(expired := r.exceptions.expired + [id]))
    case Irrelevant => r.(exceptions := r.exceptions.(irrelevant := r.exceptions.irrelevant + [id]))
    case Rejected => r.(exceptions := r.exceptions.(rejected := r.exceptions.rejected + [id]))
  }

  lemma IdsMore(exceptions: seq<ExceptionDeclaration>, e: ExceptionDeclaration, c: Context, d: Disposition)
    ensures IdsWith(exceptions + [e], c, d)
         == IdsWith(exceptions, c, d) + if EvaluateException(e, c) == Some(d) then [e.id] else []
  {
    hide EvaluateException;
    var more := exceptions + [e];
    assert more[..|more| - 1] == exceptions && more[|more| - 1] == e;
  }

  lemma IdleMore(exceptions: seq<ExceptionDeclaration>, e: ExceptionDeclaration, c: Context, advisory: bool)
    ensures IdleIds(exceptions + [e], c, advisory)
         == IdleIds(exceptions, c, advisory)
            + if IsIdle(exceptions, c, advisory, EvaluateException(e, c)) then [e.id] else []
  {
    hide EvaluateException, IsIdle;
    var more := exceptions + [e];
    assert more[..|more| - 1] == exceptions && more[|more| - 1] == e;
  }

  lemma ListOne(r: Result, n: Result, c: Context, exceptions: seq<ExceptionDeclaration>, e: ExceptionDeclaration,
                d: Disposition)
    requires Listed(r, n.exceptions, c, exceptions) && EvaluateException(e, c) == Some(d)
    requires n.severity.Advisory? <==> r.severity.Advisory? || IdsWith(exceptions, c, Applied) != []
    ensures Listed(r, Dispose(n, e.id, d).exceptions, c, exceptions + [e])
  {
    hide EvaluateException, IdsWith, IdleIds;
    var m := Dispose(n, e.id, d).exceptions;
    ListedIn(r.exceptions.stale, n.exceptions.stale, m.stale, c, exceptions, e, Stale);
    ListedIn(r.exceptions.expired, n.exceptions.expired, m.expired, c, exceptions, e, Expired);
    ListedIn(r.exceptions.rejected, n.exceptions.rejected, m.rejected, c, exceptions, e, Rejected);
    IdleMore(exceptions, e, c, r.severity.Advisory?);
  }

  /** One list of a result, to which the exception is added exactly when it has this disposition. */
  lemma ListedIn(before: seq<Id>, now: seq<Id>, next: seq<Id>, c: Context, exceptions: seq<ExceptionDeclaration>,
                 e: ExceptionDeclaration, d: Disposition)
    requires now == before + IdsWith(exceptions, c, d)
    requires next == now + if EvaluateException(e, c) == Some(d) then [e.id] else []
    ensures next == before + IdsWith(exceptions + [e], c, d)
  {
    hide EvaluateException, IdsWith;
    IdsMore(exceptions, e, c, d);
  }

  lemma ListNone(r: Result, n: Dispositions, c: Context, exceptions: seq<ExceptionDeclaration>,
                 e: ExceptionDeclaration)
    requires Listed(r, n, c, exceptions) && EvaluateException(e, c) == None
    ensures Listed(r, n, c, exceptions + [e])
  {
    hide EvaluateException, IdsWith, IdleIds;
    IdsMore(exceptions, e, c, Stale);
    IdsMore(exceptions, e, c, Expired);
    IdsMore(exceptions, e, c, Rejected);
    IdleMore(exceptions, e, c, r.severity.Advisory?);
  }

  lemma RelaxOne(r: Result, n: Result, applicable: seq<Id>, id: Id, d: Disposition)
    requires Relaxed(r, n, applicable)
    ensures Relaxed(r, Dispose(n, id, d), if d.Applied? then applicable + [id] else applicable)
  {
  }

  lemma DisposeOne(r: Result, n: Result, c: Context, exceptions: seq<ExceptionDeclaration>, e: ExceptionDeclaration)
    requires Disposed(r, n, c, exceptions)
    ensures var d := EvaluateException(e, c);
            Disposed(r, if d.Some? then Dispose(n, e.id, d.value) else n, c, exceptions + [e])
  {
    hide EvaluateException, Listed, Dispose, IdsWith;
    var d, applicable := EvaluateException(e, c), IdsWith(exceptions, c, Applied);
    IdsMore(exceptions, e, c, Applied);
    if d.Some? {
      ListOne(r, n, c, exceptions, e, d.value);
      RelaxOne(r, n, applicable, e.id, d.value);
    } else {
      ListNone(r, n.exceptions, c, exceptions, e);
    }
    assert applicable + [] == applicable;
  }

  method ApplyToResult(r: Result, c: Context, exceptions: seq<ExceptionDeclaration>) returns (n: Result)
    ensures Disposed(r, n, c, exceptions)
  {
    hide EvaluateException, Disposed, Dispose;
    n := r;
    NothingDisposed(r, c);
    for k := 0 to |exceptions|
      invariant Disposed(r, n, c, exceptions[..k])
    {
      assert exceptions[..k + 1] == exceptions[..k] + [exceptions[k]];
      DisposeOne(r, n, c, exceptions[..k], exceptions[k]);
      var d := EvaluateException(exceptions[k], c);
      if d.Some? {
        n := Dispose(n, exceptions[k].id, d.value);
      }
    }
    assert exceptions[..|exceptions|] == exceptions;
  }

  lemma NothingDisposed(r: Result, c: Context)
    ensures Disposed(r, r, c, [])
  {
  }

  // ---------- what becomes of the lists ----------

  /** The exceptions one of which is applied to a result: the first that applies, unless it is advisory. */
  function Used(exceptions: seq<ExceptionDeclaration>, c: Context, advisory: bool): seq<Id> {
    var applicable := IdsWith(exceptions, c, Applied);
    if advisory || applicable == [] then [] else [applicable[0]]
  }

  /** Every exception that applies or does not fit is used or idle, and listed once. */
  lemma {:induction false} UsedOrIdle(exceptions: seq<ExceptionDeclaration>, c: Context, advisory: bool)
    ensures multiset(Used(exceptions, c, advisory)) + multiset(IdleIds(exceptions, c, advisory))
         == multiset(IdsWith(exceptions, c, Applied)) + multiset(IdsWith(exceptions, c, Irrelevant))
  {
    hide EvaluateException, IsIdle;
    if exceptions != [] {
      var init, last := exceptions[..|exceptions| - 1], exceptions[|exceptions| - 1];
      var d := EvaluateException(last, c);
      var idle := IsIdle(init, c, advisory, d);
      var fit, unfit := IdsWith(init, c, Applied), IdsWith(init, c, Irrelevant);
      var used, unused := Used(init, c, advisory), IdleIds(init, c, advisory);
      UsedOrIdle(init, c, advisory);
      UsedMore(exceptions, c, advisory);
      hide Used;
      assert used + [] == used && unused + [] == unused && fit + [] == fit && unfit + [] == unfit;
      if d == Some(Applied) || d == Some(Irrelevant) {
        MoreCounted(used, unused, fit, unfit, last.id, idle, d == Some(Applied));
      }
    }
  }

  lemma UsedMore(exceptions: seq<ExceptionDeclaration>, c: Context, advisory: bool)
    requires exceptions != []
    ensures var init, last := exceptions[..|exceptions| - 1], exceptions[|exceptions| - 1];
            var d := EvaluateException(last, c);
            && (d == Some(Irrelevant) ==> IsIdle(init, c, advisory, d))
            && (IsIdle(init, c, advisory, d) ==> d == Some(Irrelevant) || d == Some(Applied))
            && Used(exceptions, c, advisory)
                 == Used(init, c, advisory)
                    + if d == Some(Applied) && !IsIdle(init, c, advisory, d) then [last.id] else []
  {
    hide EvaluateException;
  }

  lemma MoreCounted(used: seq<Id>, idle: seq<Id>, fit: seq<Id>, unfit: seq<Id>, id: Id, isIdle: bool, fits: bool)
    requires multiset(used) + multiset(idle) == multiset(fit) + multiset(unfit)
    ensures multiset(if isIdle then used else used + [id]) + multiset(if isIdle then idle + [id] else idle)
         == multiset(if fits then fit + [id] else fit) + multiset(if fits then unfit else unfit + [id])
  {
    var before := multiset(used) + multiset(idle);
    assert multiset(used + [id]) + multiset(idle) == before + multiset{id} == multiset(used) + multiset(idle + [id]);
    assert multiset(fit + [id]) + multiset(unfit) == before + multiset{id} == multiset(fit) + multiset(unfit + [id]);
  }

  /** No exception that concerns a result is dropped or listed twice. */
  lemma EveryExceptionIsListed(r: Result, n: Result, c: Context, exceptions: seq<ExceptionDeclaration>)
    requires Disposed(r, n, c, exceptions)
    ensures n.exceptions.stale == r.exceptions.stale + IdsWith(exceptions, c, Stale)
    ensures n.exceptions.expired == r.exceptions.expired + IdsWith(exceptions, c, Expired)
    ensures n.exceptions.rejected == r.exceptions.rejected + IdsWith(exceptions, c, Rejected)
    ensures multiset(n.exceptions.applied) + multiset(n.exceptions.irrelevant)
         == multiset(r.exceptions.applied) + multiset(r.exceptions.irrelevant)
            + multiset(IdsWith(exceptions, c, Applied)) + multiset(IdsWith(exceptions, c, Irrelevant))
  {
    hide EvaluateException, IdsWith, IdleIds;
    var advisory := r.severity.Advisory?;
    UsedOrIdle(exceptions, c, advisory);
    var used, idle := Used(exceptions, c, advisory), IdleIds(exceptions, c, advisory);
    assert n.exceptions.applied == r.exceptions.applied + used;
    hide Used, Relaxed;
    assert multiset(n.exceptions.applied) + multiset(n.exceptions.irrelevant)
        == multiset(r.exceptions.applied) + multiset(r.exceptions.irrelevant) + (multiset(used) + multiset(idle));
  }

  /** The exceptions come in the order of their ids, and no id twice. */
  ghost predicate InIdOrder(exceptions: seq<ExceptionDeclaration>) {
    forall i, j :: 0 <= i < j < |exceptions| ==> Less(exceptions[i].id, exceptions[j].id)
  }

  ghost predicate PickedFrom(ids: seq<Id>, exceptions: seq<ExceptionDeclaration>) {
    Ascending(ids) && forall id :: id in ids ==> exists e :: e in exceptions && e.id == id
  }

  lemma PickedMore(ids: seq<Id>, exceptions: seq<ExceptionDeclaration>)
    requires InIdOrder(exceptions) && exceptions != [] && PickedFrom(ids, exceptions[..|exceptions| - 1])
    ensures PickedFrom(ids, exceptions) && PickedFrom(ids + [exceptions[|exceptions| - 1].id], exceptions)
  {
    hide Less;
    var init, last := exceptions[..|exceptions| - 1], exceptions[|exceptions| - 1];
    forall id | id in ids
      ensures Less(id, last.id) && exists e :: e in exceptions && e.id == id
    {
      var e :| e in init && e.id == id;
      var i :| 0 <= i < |init| && init[i] == e;
      assert exceptions[i] == e && e in exceptions;
    }
    assert last in exceptions;
  }

  lemma {:induction false} IdsArePicked(exceptions: seq<ExceptionDeclaration>, c: Context, d: Disposition)
    requires InIdOrder(exceptions)
    ensures PickedFrom(IdsWith(exceptions, c, d), exceptions)
  {
    assert PickedFrom([], []);
    hide EvaluateException, Less, PickedFrom;
    if exceptions != [] {
      var init := exceptions[..|exceptions| - 1];
      IdsArePicked(init, c, d);
      PickedMore(IdsWith(init, c, d), exceptions);
      assert IdsWith(init, c, d) + [] == IdsWith(init, c, d);
    }
  }

  lemma {:induction false} IdleArePicked(exceptions: seq<ExceptionDeclaration>, c: Context, advisory: bool)
    requires InIdOrder(exceptions)
    ensures PickedFrom(IdleIds(exceptions, c, advisory), exceptions)
  {
    assert PickedFrom([], []);
    hide EvaluateException, Less, PickedFrom, IsIdle;
    if exceptions != [] {
      var init := exceptions[..|exceptions| - 1];
      IdleArePicked(init, c, advisory);
      PickedMore(IdleIds(init, c, advisory), exceptions);
      assert IdleIds(init, c, advisory) + [] == IdleIds(init, c, advisory);
    }
  }

  ghost predicate InOrder(d: Dispositions) {
    && Ascending(d.applied) && Ascending(d.stale) && Ascending(d.expired)
    && Ascending(d.irrelevant) && Ascending(d.rejected)
  }

  /** Exceptions in the order of their ids give lists in that order, without repetition. */
  lemma ListsInOrder(r: Result, n: Result, c: Context, exceptions: seq<ExceptionDeclaration>)
    requires Disposed(r, n, c, exceptions) && InIdOrder(exceptions) && r.exceptions == NO_DISPOSITIONS
    ensures InOrder(n.exceptions)
  {
    IdsArePicked(exceptions, c, Stale);
    IdsArePicked(exceptions, c, Expired);
    IdsArePicked(exceptions, c, Rejected);
    IdleArePicked(exceptions, c, r.severity.Advisory?);
    hide IdsWith, IdleIds, Less, InIdOrder;
    var m := n.exceptions;
    assert m.stale == IdsWith(exceptions, c, Stale) && m.expired == IdsWith(exceptions, c, Expired);
    assert m.rejected == IdsWith(exceptions, c, Rejected);
    assert m.irrelevant == IdleIds(exceptions, c, r.severity.Advisory?);
    assert |m.applied| <= 1;
  }

  /** The locked import closure digests of the modules. */
  type Closures = map<Id, string>

  /** Exceptions are looked at only for results about a constraint of a locked module. */
  predicate Concerned(g: GoverningGraph, closures: Closures, r: Result) {
    r.declarationId in g.constraints && g.constraints[r.declarationId] in closures
  }

  function ContextOf(g: GoverningGraph, closures: Closures, r: Result, asOf: string): Context
    requires Concerned(g, closures, r)
  {
    var declaringModule := g.constraints[r.declarationId];
    Context(r.declarationId, 1, r.declarationId, declaringModule, closures[declaringModule], asOf)
  }

  ghost predicate Settled(g: GoverningGraph, closures: Closures, exceptions: seq<ExceptionDeclaration>, asOf: string,
                          r: Result, n: Result)
  {
    if Concerned(g, closures, r) then Disposed(r, n, ContextOf(g, closures, r, asOf), exceptions) else n == r
  }

  method ApplyExceptions(results: Results, g: GoverningGraph, closures: Closures,
                         exceptions: seq<ExceptionDeclaration>, asOf: string)
    returns (settled: Results)
    ensures settled.Keys == results.Keys
    ensures forall id :: id in results ==> Settled(g, closures, exceptions, asOf, results[id], settled[id])
  {
    hide Disposed, Concerned, ContextOf;
    settled := results;
    var rest := results.Keys;
    while rest != {}
      invariant rest <= results.Keys == settled.Keys
      invariant forall id :: id in rest ==> settled[id] == results[id]
      invariant forall id :: id in results.Keys - rest ==>
                  Settled(g, closures, exceptions, asOf, results[id], settled[id])
    {
      var id :| id in rest;
      rest := rest - {id};
      if Concerned(g, closures, settled[id]) {
        var n := ApplyToResult(settled[id], ContextOf(g, closures, settled[id], asOf), exceptions);
        settled := settled[id := n];
      }
    }
  }

  /** Exceptions never raise a severity, and at most one of them is applied to a result. */
  lemma ExceptionsOnlyRelax(g: GoverningGraph, closures: Closures, exceptions: seq<ExceptionDeclaration>, asOf: string,
                            r: Result, n: Result)
    requires Settled(g, closures, exceptions, asOf, r, n)
    ensures n.severity == r.severity || n.severity == Advisory
    ensures |r.exceptions.applied| <= |n.exceptions.applied| <= |r.exceptions.applied| + 1
    ensures |n.exceptions.applied| > |r.exceptions.applied| <==> n.severity != r.severity
    ensures n.state == r.state && n.evidence == r.evidence && n.reason == r.reason
  {
  }

  lemma {:induction false} SomeApplies(exceptions: seq<ExceptionDeclaration>, c: Context, d: Disposition)
    ensures IdsWith(exceptions, c, d) != [] <==>
            exists e :: e in exceptions && EvaluateException(e, c) == Some(d)
  {
    hide EvaluateException;
    if exceptions != [] {
      SomeApplies(exceptions[..|exceptions| - 1], c, d);
      assert exceptions == exceptions[..|exceptions| - 1] + [exceptions[|exceptions| - 1]];
    }
  }

  /** An exception lowers a severity exactly when the result is above advisory, is about a constraint
      of a locked module, and some exception applies to it. */
  lemma RelaxedExactly(g: GoverningGraph, closures: Closures, exceptions: seq<ExceptionDeclaration>, asOf: string,
                       r: Result, n: Result)
    requires Settled(g, closures, exceptions, asOf, r, n)
    ensures n.severity != r.severity <==>
            && !r.severity.Advisory? && Concerned(g, closures, r)
            && exists e :: e in exceptions && EvaluateException(e, ContextOf(g, closures, r, asOf)) == Some(Applied)
  {
    if Concerned(g, closures, r) {
      SomeApplies(exceptions, ContextOf(g, closures, r, asOf), Applied);
    }
  }

  /** The results an exception is looked at for are the advisory results of constraints. */
  lemma OnlyConstraintsAreConcerned(g: GoverningGraph, o: Observation, id: Id, s: Subject, closures: Closures)
    requires Compiled(g) && IsAbout(g, o, id, s) && Concerned(g, closures, Expected(g, o, id, s))
    ensures s.Constraint? && Expected(g, o, id, s).severity.Advisory?
  {
  }

  // ---------- which findings fail the check ----------

  ghost predicate HasErrors(results: Results) {
    exists id :: id in results && results[id].severity.Error?
  }

  /** Some binding whose id no undeclared fact bears is contradicted, or some undeclared fact is
      established. */
  ghost predicate FailsCheck(g: GoverningGraph, o: Observation)
    requires Compiled(g)
  {
    || (exists b :: b in g.bindings && !IsAbout(g, o, b, UndeclaredFact)
                    && Contradicted(b, g.bindings[b], g.objects[g.bindings[b].target], o))
    || (exists f :: IsAbout(g, o, f, UndeclaredFact) && Established(f, o))
  }

  lemma FailsExactly(g: GoverningGraph, o: Observation, id: Id, s: Subject)
    requires Compiled(g) && IsAbout(g, o, id, s)
    ensures Expected(g, o, id, s).severity.Error? <==>
            || (s.BindingOf? && Contradicted(id, g.bindings[id], g.objects[g.bindings[id].target], o))
            || (s.UndeclaredFact? && Established(id, o))
  {
    if s.BindingOf? {
      BindingFailsExactly(id, g.bindings[id], g.objects[g.bindings[id].target], o);
    }
  }

  lemma ErrorsExactly(g: GoverningGraph, o: Observation, results: Results)
    requires Compiled(g) && Evaluated(g, o, results)
    ensures HasErrors(results) <==> FailsCheck(g, o)
  {
    forall id, s | IsAbout(g, o, id, s)
      ensures Expected(g, o, id, s).severity.Error? <==>
              || (s.BindingOf? && Contradicted(id, g.bindings[id], g.objects[g.bindings[id].target], o))
              || (s.UndeclaredFact? && Established(id, o))
    {
      FailsExactly(g, o, id, s);
    }
    hide Expected, Contradicted, Established;
    if id :| id in results && results[id].severity.Error? {
      if IsAbout(g, o, id, UndeclaredFact) {
        assert results[id] == Expected(g, o, id, UndeclaredFact);
      } else {
        var s :| IsAbout(g, o, id, s);
        assert results[id] == Expected(g, o, id, s);
      }
    }
    if b :| b in g.bindings && !IsAbout(g, o, b, UndeclaredFact)
            && Contradicted(b, g.bindings[b], g.objects[g.bindings[b].target], o) {
      assert IsAbout(g, o, b, BindingOf) && results[b] == Expected(g, o, b, BindingOf);
    }
    if f :| IsAbout(g, o, f, UndeclaredFact) && Established(f, o) {
      assert results[f] == Expected(g, o, f, UndeclaredFact);
    }
  }

  datatype Conclusion = Conformed(results: Results) | Refused

  /** The result as the evaluator found it, with dispositions added but none of them applied. */
  ghost predicate Stands(expected: Result, r: Result) {
    r == expected.(exceptions := r.exceptions) && r.exceptions.applied == []
  }

  /** The guard never refuses what the evaluator reports; and since only constraints have exceptions
      and constraints are only ever advisory, no exception is applied and every result keeps the
      severity the evaluator gave it. */
  method Conform(g: GoverningGraph, o: Observation, closures: Closures, exceptions: seq<ExceptionDeclaration>,
                 asOf: string)
    returns (outcome: Conclusion)
    requires Compiled(g)
    ensures outcome.Conformed?
    ensures forall id :: id in outcome.results <==> exists s :: IsAbout(g, o, id, s)
    ensures forall id, s :: IsAbout(g, o, id, s) && (s.UndeclaredFact? || !IsAbout(g, o, id, UndeclaredFact)) ==>
              id in outcome.results && Stands(Expected(g, o, id, s), outcome.results[id])
    ensures HasErrors(outcome.results) <==> FailsCheck(g, o)
    ensures InIdOrder(exceptions) ==> forall id :: id in outcome.results ==> InOrder(outcome.results[id].exceptions)
  {
    hide Expected, Settled, FailsCheck, IsAbout, Compiled, Backed, Stands, InIdOrder, InOrder;
    var results := Evaluate(g, o);
    var settled := ApplyExceptions(results, g, closures, exceptions, asOf);
    forall id | id in results
      ensures Backed(o, settled[id]) && Stands(results[id], settled[id])
      ensures InIdOrder(exceptions) ==> InOrder(settled[id].exceptions)
    {
      OneResult(g, o, results, closures, exceptions, asOf, id, settled[id]);
    }
    ErrorsExactly(g, o, results);
    SameErrors(results, settled);
    var codes := ValidateEvidence(settled, o);
    if |codes| > 0 {
      return Refused;
    }
    return Conformed(settled);
  }

  lemma OneResult(g: GoverningGraph, o: Observation, results: Results, closures: Closures,
                  exceptions: seq<ExceptionDeclaration>, asOf: string, id: Id, n: Result)
    requires Compiled(g) && Evaluated(g, o, results) && id in results
    requires Settled(g, closures, exceptions, asOf, results[id], n)
    ensures Backed(o, n) && Stands(results[id], n)
    ensures InIdOrder(exceptions) ==> InOrder(n.exceptions)
  {
    hide Expected, Concerned, ContextOf, InIdOrder;
    var s :| IsAbout(g, o, id, s);
    var subject := if IsAbout(g, o, id, UndeclaredFact) then UndeclaredFact else s;
    ExpectedIsBacked(g, o, id, subject);
    if Concerned(g, closures, results[id]) {
      OnlyConstraintsAreConcerned(g, o, id, subject, closures);
      if InIdOrder(exceptions) {
        ListsInOrder(results[id], n, ContextOf(g, closures, results[id], asOf), exceptions);
      }
    }
  }

  lemma SameErrors(results: Results, settled: Results)
    requires results.Keys == settled.Keys && forall id :: id in results ==> Stands(results[id], settled[id])
    ensures HasErrors(results) <==> HasErrors(settled)
  {
  }

  /** A binding's own result is reported exactly when no undeclared fact bears its id. */
  lemma BindingReportedExactly(g: GoverningGraph, o: Observation, results: Results, id: Id)
    requires Compiled(g) && Evaluated(g, o, results) && id in g.bindings
    ensures id in results
    ensures results[id] == Expected(g, o, id, BindingOf) <==> !IsAbout(g, o, id, UndeclaredFact)
  {
    assert IsAbout(g, o, id, BindingOf);
    NamedTargets(g, o, id);
    hide Expected;
    if IsAbout(g, o, id, UndeclaredFact) {
      assert results[id] == Expected(g, o, id, UndeclaredFact);
    }
  }

  /** A binding's result names its object; that of an undeclared fact names what is not declared. */
  lemma NamedTargets(g: GoverningGraph, o: Observation, id: Id)
    requires Compiled(g) && id in g.bindings
    ensures Expected(g, o, id, BindingOf).declarationId in g.objects
    ensures IsAbout(g, o, id, UndeclaredFact) ==>
              !Declared(g, Expected(g, o, id, UndeclaredFact).declarationId)
  {
    assert EvaluateBinding(id, g.bindings[id], g.objects[g.bindings[id].target], o).declarationId
        == g.bindings[id].target;
    hide EvaluateBinding;
  }

  /** A binding's error is lost exactly when an undeclared fact bears its id and is inferred or not
      completely covered. */
  lemma ErrorLostExactly(g: GoverningGraph, o: Observation, results: Results, id: Id)
    requires Compiled(g) && Evaluated(g, o, results) && id in g.bindings
    requires Expected(g, o, id, BindingOf).severity.Error?
    ensures id in results
    ensures !results[id].severity.Error? <==> IsAbout(g, o, id, UndeclaredFact) && !Established(id, o)
  {
    BindingReportedExactly(g, o, results, id);
    if IsAbout(g, o, id, UndeclaredFact) {
      FailsExactly(g, o, id, UndeclaredFact);
      hide Established, Expected;
      assert results[id] == Expected(g, o, id, UndeclaredFact);
    }
  }

  /** It does happen. */
  lemma FactHidesBinding() returns (g: GoverningGraph, o: Observation, id: Id)
    ensures Compiled(g) && IsAbout(g, o, id, BindingOf) && Expected(g, o, id, BindingOf).severity.Error?
    ensures forall results: Results :: Evaluated(g, o, results) ==> !results[id].severity.Error?
  {
    id := "example.binding.shop";
    g := GoverningGraph(
      map["example.package.shop" := "package"], {},
      map[id := Binding("example.package.shop", "npm.package", ExactlyOne)], map[]);
    o := Observation(
      map[id := Fact("example.package.stray", "package", None, Mode.Inferred, {"example.coverage.npm"})],
      map["example.coverage.npm" := Coverage("npm.package", CompleteCoverage)]);
    assert FactsOf(o, "example.package.shop", id) == {};
    assert CoverageOf(o, "npm.package") == {"example.coverage.npm"};
    assert IsAbout(g, o, id, UndeclaredFact);
  }
}

/** The interrupt registration protocol as a state machine over its atomic steps. Registering
    threads, signal handlers and dropped registrations interleave freely; the owner slot is touched
    only under its lock, the latch and the budgets' flags are touched outside it. */
module Cancellation {
  import opened SourceGraphs

  type BudgetId = nat
  type ThreadId = nat
  type HandlerId = nat
  type RegistrationId = nat

  /** A registration under way: published, about to read the latch, or about to cancel its budget. */
  datatype Registering = Swapping(budget: BudgetId) | Cancelling(budget: BudgetId)

  /** A handler under way: the latch is stored; then the owner, if alive, is held strongly. */
  datatype Handler = Stored | Captured(budget: BudgetId)

  /** `owner` is a weak reference: it may name a budget that is no longer in `alive`. `clearing` is
      a drop that holds the lock between resetting the owner and resetting the latch. `owed` is
      history: the budgets for which an interrupt was latched when they were published, or was
      stored while they were the live owner. */
  datatype State = State(
    interrupted: bool,
    owner: Option<BudgetId>,
    clearing: bool,
    alive: set<BudgetId>,
    created: set<BudgetId>,
    cancelled: set<BudgetId>,
    registering: map<ThreadId, Registering>,
    registrations: map<RegistrationId, BudgetId>,
    handlers: map<HandlerId, Handler>,
    owed: set<BudgetId>)
  {
    /** The live budget in the slot, as upgrading the weak reference finds it. */
    function Upgraded(): Option<BudgetId> {
      if owner.Some? && owner.value in alive then owner else None
    }

    predicate HeldByProtocol(b: BudgetId) {
      || (exists t :: t in registering && registering[t].budget == b)
      || (exists h :: h in handlers && handlers[h] == Captured(b))
    }
  }

  const INITIAL := State(false, None, false, {}, {}, {}, map[], map[], map[], {})

  datatype Step =
    | Create(b: BudgetId)
    | Release(b: BudgetId)
    | Publish(t: ThreadId, b: BudgetId)
    | Swap(t: ThreadId, r: RegistrationId)
    | CancelOwn(t: ThreadId, r: RegistrationId)
    | Store(h: HandlerId)
    | Capture(h: HandlerId)
    | CancelCaptured(h: HandlerId)
    | Drop(r: RegistrationId)
    | ClearLatch
  {
    predicate OfHandler() {
      Store? || Capture? || CancelCaptured?
    }
  }

  predicate Enabled(s: State, step: Step) {
    match step
    case Create(b) => b !in s.created
    // the last strong reference goes; callers and handlers at work keep theirs
    case Release(b) => b in s.alive && !s.HeldByProtocol(b)
    // under the lock, and refused while another live budget owns the slot
    case Publish(t, b) => !s.clearing && t !in s.registering && b in s.alive && s.Upgraded().None?
    case Swap(t, r) => t in s.registering && s.registering[t].Swapping? && r !in s.registrations
    case CancelOwn(t, r) => t in s.registering && s.registering[t].Cancelling? && r !in s.registrations
    case Store(h) => h !in s.handlers
    case Capture(h) => !s.clearing && h in s.handlers && s.handlers[h].Stored?
    case CancelCaptured(h) => h in s.handlers && s.handlers[h].Captured?
    case Drop(r) => !s.clearing && r in s.registrations
    case ClearLatch => s.clearing
  }

  function Next(s: State, step: Step): State
    requires Enabled(s, step)
  {
    match step
    case Create(b) => s.(alive := s.alive + {b}, created := s.created + {b})
    case Release(b) => s.(alive := s.alive - {b})
    case Publish(t, b) =>
      s.(owner := Some(b), registering := s.registering[t := Swapping(b)],
         owed := if s.interrupted then s.owed + {b} else s.owed - {b})
    case Swap(t, r) =>
      var b := s.registering[t].budget;
      if s.interrupted then s.(interrupted := false, registering := s.registering[t := Cancelling(b)])
      else s.(registering := s.registering - {t}, registrations := s.registrations[r := b])
    case CancelOwn(t, r) =>
      var b := s.registering[t].budget;
      s.(cancelled := s.cancelled + {b}, registering := s.registering - {t},
         registrations := s.registrations[r := b])
    case Store(h) =>
      s.(interrupted := true, handlers := s.handlers[h := Stored],
         owed := if s.Upgraded().Some? then s.owed + {s.owner.value} else s.owed)
    case Capture(h) =>
      if s.Upgraded().Some? then s.(handlers := s.handlers[h := Captured(s.owner.value)])
      else s.(handlers := s.handlers - {h})
    case CancelCaptured(h) =>
      s.(cancelled := s.cancelled + {s.handlers[h].budget}, handlers := s.handlers - {h})
    case Drop(r) =>
      var rest := s.(registrations := s.registrations - {r});
      if s.Upgraded() == Some(s.registrations[r]) then rest.(owner := None, clearing := true) else rest
    case ClearLatch => s.(interrupted := false, clearing := false)
  }

  ghost predicate IsRun(s: State, steps: seq<Step>, t: State)
    decreases |steps|
  {
    if steps == [] then s == t
    else Enabled(s, steps[0]) && IsRun(Next(s, steps[0]), steps[1..], t)
  }

  ghost predicate Reachable(s: State) {
    exists steps :: IsRun(INITIAL, steps, s)
  }

  // ---------- what every interleaving keeps ----------

  /** A returned registration that was not dropped and whose budget is alive. */
  predicate LiveRegistration(s: State, r: RegistrationId) {
    r in s.registrations && s.registrations[r] in s.alive
  }

  /** A budget being registered is the live owner, and there is at most one. */
  ghost predicate SlotClaim(s: State) {
    && (s.clearing ==> s.owner.None?)
    && (s.owner.Some? ==> s.owner.value in s.created)
    && s.alive <= s.created
    && (forall t :: t in s.registering ==> s.Upgraded() == Some(s.registering[t].budget))
    && (forall t, u :: t in s.registering && u in s.registering ==> t == u)
    && (forall h :: h in s.handlers && s.handlers[h].Captured? ==> s.handlers[h].budget in s.alive)
  }

  /** The budget of a live registration is the live owner, there is at most one such registration,
      and none while another budget is being registered. */
  ghost predicate LiveClaim(s: State) {
    && (forall r :: r in s.registrations ==> s.registrations[r] in s.created)
    && (forall r :: LiveRegistration(s, r) ==>
          s.Upgraded() == Some(s.registrations[r]) && forall t :: t !in s.registering)
    && (forall r, q :: LiveRegistration(s, r) && LiveRegistration(s, q) ==> r == q)
  }

  ghost predicate OneClaim(s: State) {
    SlotClaim(s) && LiveClaim(s)
  }

  /** Some step that is already under way will still cancel the budget. */
  ghost predicate OnItsWay(s: State, b: BudgetId) {
    || (exists h :: h in s.handlers && (s.handlers[h] == Stored || s.handlers[h] == Captured(b)))
    || (exists t :: t in s.registering && s.registering[t] == Cancelling(b))
    || (s.interrupted && exists t :: t in s.registering && s.registering[t] == Swapping(b))
  }

  ghost predicate NothingLost(s: State) {
    s.Upgraded().Some? && s.owner.value in s.owed ==>
      s.owner.value in s.cancelled || OnItsWay(s, s.owner.value)
  }

  lemma SlotClaimKept(s: State, step: Step)
    requires OneClaim(s) && Enabled(s, step)
    ensures SlotClaim(Next(s, step))
  {
    if step.Drop? {
      assert s.Upgraded() == Some(s.registrations[step.r]) ==> LiveRegistration(s, step.r);
    }
  }

  lemma LiveClaimKept(s: State, step: Step)
    requires OneClaim(s) && Enabled(s, step)
    ensures LiveClaim(Next(s, step))
  {
    var n := Next(s, step);
    forall r | LiveRegistration(n, r)
      ensures n.Upgraded() == Some(n.registrations[r]) && forall t :: t !in n.registering
    {
      if (step.Swap? || step.CancelOwn?) && r == step.r {
        assert step.t in s.registering;
      } else {
        assert LiveRegistration(s, r);
        assert step.Drop? && s.Upgraded() == Some(s.registrations[step.r]) ==> LiveRegistration(s, step.r);
      }
    }
    forall r, q | LiveRegistration(n, r) && LiveRegistration(n, q)
      ensures r == q
    {
      assert LiveRegistration(s, r) || ((step.Swap? || step.CancelOwn?) && r == step.r);
      assert LiveRegistration(s, q) || ((step.Swap? || step.CancelOwn?) && q == step.r);
    }
  }

  lemma NothingLostKept(s: State, step: Step)
    requires OneClaim(s) && NothingLost(s) && Enabled(s, step)
    ensures NothingLost(Next(s, step))
  {
    var n := Next(s, step);
    if n.Upgraded().Some? && n.owner.value in n.owed && n.owner.value !in n.cancelled {
      var b := n.owner.value;
      match step {
        case Publish(t, _) =>
          assert n.registering[t] == Swapping(b);
        case Store(h) =>
          assert n.handlers[h] == Stored;
        case Swap(t, _) =>
          assert s.registering[t] == Swapping(b);
          if s.interrupted {
            assert n.registering[t] == Cancelling(b);
          } else {
            var h :| h in s.handlers && (s.handlers[h] == Stored || s.handlers[h] == Captured(b));
            assert n.handlers[h] == s.handlers[h];
          }
        case Capture(h) =>
          assert n.handlers[h] == Captured(b);
        case _ =>
          StillOnItsWay(s, step, b);
      }
    }
  }

  lemma StillOnItsWay(s: State, step: Step, b: BudgetId)
    requires OneClaim(s) && Enabled(s, step) && OnItsWay(s, b) && s.Upgraded() == Some(b)
    requires step.Create? || step.Release? || step.CancelOwn? || step.CancelCaptured? || step.Drop? || step.ClearLatch?
    ensures b in Next(s, step).cancelled || Next(s, step).Upgraded() != Some(b) || OnItsWay(Next(s, step), b)
  {
    var n := Next(s, step);
    if h :| h in s.handlers && (s.handlers[h] == Stored || s.handlers[h] == Captured(b)) {
      assert h in n.handlers ==> n.handlers[h] == s.handlers[h];
    } else {
      var t :| t in s.registering && s.registering[t].budget == b;
      assert t in n.registering ==> n.registering[t] == s.registering[t];
    }
  }

  lemma {:induction false} RunKeeps(s: State, steps: seq<Step>, t: State)
    requires OneClaim(s) && NothingLost(s) && IsRun(s, steps, t)
    ensures OneClaim(t) && NothingLost(t)
    decreases |steps|
  {
    if steps != [] {
      SlotClaimKept(s, steps[0]);
      LiveClaimKept(s, steps[0]);
      NothingLostKept(s, steps[0]);
      RunKeeps(Next(s, steps[0]), steps[1..], t);
    }
  }

  lemma ReachableKeeps(s: State)
    requires Reachable(s)
    ensures OneClaim(s) && NothingLost(s)
  {
    var steps :| IsRun(INITIAL, steps, s);
    RunKeeps(INITIAL, steps, s);
  }

  // ---------- what it is for ----------

  /** No interrupt is lost: while a registration stands and its budget lives, an interrupt latched
      when the budget was published or stored since has cancelled it once no handler is at work. */
  lemma NoInterruptIsLost(s: State, r: RegistrationId)
    requires Reachable(s) && LiveRegistration(s, r) && s.handlers == map[]
    requires s.registrations[r] in s.owed
    ensures s.registrations[r] in s.cancelled
  {
    ReachableKeeps(s);
  }

  /** At most one registration is live, and the slot holds its budget; so a dropped registration is
      the current one exactly when its budget is still alive. */
  lemma AtMostOneLiveOwner(s: State, r: RegistrationId, q: RegistrationId)
    requires Reachable(s) && r in s.registrations
    ensures s.Upgraded() == Some(s.registrations[r]) <==> s.registrations[r] in s.alive
    ensures LiveRegistration(s, r) && LiveRegistration(s, q) ==> r == q
  {
    ReachableKeeps(s);
  }

  /** The whole effect of a drop, its latch step included when it has one. */
  function Dropped(s: State, r: RegistrationId): State
    requires Enabled(s, Drop(r))
  {
    var n := Next(s, Drop(r));
    if n.clearing then Next(n, ClearLatch) else n
  }

  /** Dropping a registration resets owner and latch exactly when its budget is alive, and nothing
      besides the registration itself otherwise. */
  lemma DropClearsExactly(s: State, r: RegistrationId)
    requires Reachable(s) && Enabled(s, Drop(r))
    ensures var n := Dropped(s, r);
            if s.registrations[r] in s.alive then n.owner == None && !n.interrupted
            else n == s.(registrations := s.registrations - {r})
  {
    ReachableKeeps(s);
  }

  /** Nothing of an interrupt is left: no latch, and no registration that read one. */
  ghost predicate Quiet(s: State) {
    !s.interrupted && forall t :: t in s.registering ==> s.registering[t].Swapping?
  }

  ghost predicate HandlerFree(steps: seq<Step>) {
    forall step :: step in steps ==> !step.OfHandler()
  }

  lemma HandlerFreeTail(steps: seq<Step>)
    requires HandlerFree(steps) && steps != []
    ensures !steps[0].OfHandler() && HandlerFree(steps[1..])
  {
    assert steps[0] in steps && forall step :: step in steps[1..] ==> step in steps;
  }

  /** Quiet, or about to be: a drop is clearing the latch, and nobody can read it before. */
  ghost predicate Quieting(s: State) {
    Quiet(s) || (s.clearing && s.registering == map[])
  }

  /** Without handler steps such a state stays so and nobody is cancelled. */
  lemma {:induction false} QuietRun(s: State, steps: seq<Step>, t: State)
    requires Quieting(s) && IsRun(s, steps, t) && HandlerFree(steps)
    ensures Quieting(t) && t.cancelled == s.cancelled
    decreases |steps|
  {
    if steps != [] {
      HandlerFreeTail(steps);
      QuietRun(Next(s, steps[0]), steps[1..], t);
    }
  }

  /** After a drop that found its budget alive nobody is cancelled until a handler step falls after
      it, whatever falls between its resetting the owner and its resetting the latch. */
  lemma NextStartsUncancelled(s: State, r: RegistrationId, steps: seq<Step>, t: State)
    requires Reachable(s) && Enabled(s, Drop(r)) && s.registrations[r] in s.alive
    requires IsRun(Next(s, Drop(r)), steps, t) && HandlerFree(steps)
    ensures t.cancelled == s.cancelled
  {
    ReachableKeeps(s);
    QuietRun(Next(s, Drop(r)), steps, t);
  }

  // ---------- the latch a drop leaves behind ----------

  function FirstPublished(steps: seq<Step>): Option<BudgetId> {
    if steps == [] then None else if steps[0].Publish? then Some(steps[0].b) else FirstPublished(steps[1..])
  }

  ghost predicate HasReturned(s: State, b: BudgetId) {
    forall t :: t in s.registering ==> s.registering[t].budget != b
  }

  /** In every run without handler steps the first budget published is cancelled when its
      registration has returned. */
  ghost predicate CancelsNext(s: State) {
    forall steps, t, b ::
      IsRun(s, steps, t) && HandlerFree(steps) && FirstPublished(steps) == Some(b) && HasReturned(t, b) ==>
        b in t.cancelled
  }

  /** The latch is set and nobody can clear it: there is no live owner to drop. */
  ghost predicate Armed(s: State) {
    OneClaim(s) && s.interrupted && !s.clearing && s.Upgraded().None?
  }

  /** The budget is cancelled, or its registration is bound to cancel it. */
  ghost predicate Coming(s: State, b: BudgetId) {
    || b in s.cancelled
    || exists t :: t in s.registering && (s.registering[t] == Cancelling(b)
                                          || (s.registering[t] == Swapping(b) && s.interrupted && !s.clearing))
  }

  lemma ComingKept(s: State, b: BudgetId, step: Step)
    requires OneClaim(s) && Coming(s, b) && Enabled(s, step) && !step.OfHandler()
    ensures Coming(Next(s, step), b)
  {
    var n := Next(s, step);
    if b !in n.cancelled {
      var t :| t in s.registering && (s.registering[t] == Cancelling(b)
                                      || (s.registering[t] == Swapping(b) && s.interrupted && !s.clearing));
      assert step.Drop? ==> !LiveRegistration(s, step.r);
      assert t in n.registering;
    }
  }

  lemma {:induction false} ComingRun(s: State, steps: seq<Step>, t: State, b: BudgetId)
    requires OneClaim(s) && Coming(s, b) && IsRun(s, steps, t) && HandlerFree(steps)
    ensures Coming(t, b)
    decreases |steps|
  {
    if steps != [] {
      HandlerFreeTail(steps);
      ComingKept(s, b, steps[0]);
      SlotClaimKept(s, steps[0]);
      LiveClaimKept(s, steps[0]);
      ComingRun(Next(s, steps[0]), steps[1..], t, b);
    }
  }

  lemma ArmedStep(s: State, step: Step)
    requires Armed(s) && Enabled(s, step) && !step.OfHandler()
    ensures OneClaim(Next(s, step))
    ensures if step.Publish? then Coming(Next(s, step), step.b) else Armed(Next(s, step))
  {
    SlotClaimKept(s, step);
    LiveClaimKept(s, step);
    if step.Publish? {
      assert Next(s, step).registering[step.t] == Swapping(step.b);
    }
  }

  lemma {:induction false} ArmedRun(s: State, steps: seq<Step>, t: State, b: BudgetId)
    requires Armed(s) && IsRun(s, steps, t) && HandlerFree(steps) && FirstPublished(steps) == Some(b)
    ensures Coming(t, b)
    decreases |steps|
  {
    HandlerFreeTail(steps);
    ArmedStep(s, steps[0]);
    if steps[0].Publish? {
      ComingRun(Next(s, steps[0]), steps[1..], t, b);
    } else {
      ArmedRun(Next(s, steps[0]), steps[1..], t, b);
    }
  }

  /** A live owner is being registered or has a registration that can be dropped. */
  ghost predicate OwnerHeld(s: State) {
    s.Upgraded().Some? ==>
      || (exists t :: t in s.registering && s.registering[t].budget == s.owner.value)
      || (exists r :: r in s.registrations && s.registrations[r] == s.owner.value)
  }

  lemma OwnerHeldKept(s: State, step: Step)
    requires OneClaim(s) && OwnerHeld(s) && Enabled(s, step)
    ensures OwnerHeld(Next(s, step))
  {
    var n := Next(s, step);
    if n.Upgraded().Some? {
      if step.Publish? {
        assert n.registering[step.t].budget == n.owner.value;
      } else if t :| t in s.registering && s.registering[t].budget == s.owner.value {
        if t in n.registering {
          assert n.registering[t].budget == n.owner.value;
        } else {
          assert n.registrations[step.r] == n.owner.value;
        }
      } else {
        var r :| r in s.registrations && s.registrations[r] == s.owner.value;
        assert r in n.registrations && n.registrations[r] == n.owner.value;
      }
    }
  }

  lemma {:induction false} OwnerHeldRun(s: State, steps: seq<Step>, t: State)
    requires OneClaim(s) && OwnerHeld(s) && IsRun(s, steps, t)
    ensures OneClaim(t) && OwnerHeld(t)
    decreases |steps|
  {
    if steps != [] {
      SlotClaimKept(s, steps[0]);
      LiveClaimKept(s, steps[0]);
      OwnerHeldKept(s, steps[0]);
      OwnerHeldRun(Next(s, steps[0]), steps[1..], t);
    }
  }

  lemma {:induction false} Unused(s: set<nat>) returns (x: nat)
    ensures x !in s && forall y :: y in s ==> y < x
    decreases s
  {
    if s == {} {
      x := 0;
    } else {
      var y :| y in s;
      var rest := Unused(s - {y});
      x := if rest <= y then y + 1 else rest;
      assert forall z :: z in s ==> z == y || z in s - {y};
    }
  }

  /** A run without handler steps in which nobody publishes. */
  ghost predicate Calm(s: State, steps: seq<Step>, t: State) {
    IsRun(s, steps, t) && HandlerFree(steps) && forall step :: step in steps ==> !step.Publish?
  }

  lemma CalmMore(s: State, steps: seq<Step>, m: State, step: Step)
    requires Calm(s, steps, m) && Enabled(m, step) && !step.OfHandler() && !step.Publish?
    ensures Calm(s, steps + [step], Next(m, step))
  {
    RunAppend(s, steps, m, step);
  }

  /** Nobody holds the slot, and the latch is not set. */
  ghost predicate Idle(s: State) {
    OneClaim(s) && !s.clearing && !s.interrupted && s.Upgraded().None?
  }

  /** Dropping the live owner's registration leaves the slot and the latch empty. */
  lemma DropToIdle(s: State, steps: seq<Step>, m: State, r: RegistrationId) returns (more: seq<Step>, u: State)
    requires Calm(s, steps, m) && OneClaim(m) && !m.clearing && LiveRegistration(m, r)
    ensures Calm(s, more, u) && Idle(u)
  {
    var n := Next(m, Drop(r));
    CalmMore(s, steps, m, Drop(r));
    SlotClaimKept(m, Drop(r));
    LiveClaimKept(m, Drop(r));
    CalmMore(s, steps + [Drop(r)], n, ClearLatch);
    SlotClaimKept(n, ClearLatch);
    LiveClaimKept(n, ClearLatch);
    more, u := steps + [Drop(r)] + [ClearLatch], Next(n, ClearLatch);
  }

  /** A registration under way can return. */
  lemma Return(s: State, t: ThreadId) returns (steps: seq<Step>, m: State, r: RegistrationId)
    requires OneClaim(s) && !s.clearing && t in s.registering
    ensures Calm(s, steps, m) && OneClaim(m) && !m.clearing && LiveRegistration(m, r)
  {
    r := Unused(s.registrations.Keys);
    steps, m := [], s;
    if s.registering[t].Swapping? {
      CalmMore(s, [], s, Swap(t, r));
      SlotClaimKept(s, Swap(t, r));
      LiveClaimKept(s, Swap(t, r));
      steps, m := [] + [Swap(t, r)], Next(s, Swap(t, r));
    }
    if t in m.registering {
      CalmMore(s, steps, m, CancelOwn(t, r));
      SlotClaimKept(m, CancelOwn(t, r));
      LiveClaimKept(m, CancelOwn(t, r));
      steps, m := steps + [CancelOwn(t, r)], Next(m, CancelOwn(t, r));
    }
  }

  /** Unless the state is armed, some run without handler steps empties slot and latch. */
  lemma ToIdle(s: State) returns (steps: seq<Step>, u: State)
    requires OneClaim(s) && OwnerHeld(s) && !Armed(s)
    ensures Calm(s, steps, u) && Idle(u)
  {
    steps, u := [], s;
    if s.clearing {
      CalmMore(s, [], s, ClearLatch);
      SlotClaimKept(s, ClearLatch);
      LiveClaimKept(s, ClearLatch);
      steps, u := [] + [ClearLatch], Next(s, ClearLatch);
    } else if s.Upgraded().Some? {
      var r;
      if t :| t in s.registering {
        steps, u, r := Return(s, t);
      } else {
        r :| r in s.registrations && s.registrations[r] == s.owner.value;
      }
      steps, u := DropToIdle(s, steps, u, r);
    }
  }

  lemma {:induction false} FirstAfterCalm(steps: seq<Step>, t: ThreadId, b: BudgetId, rest: seq<Step>)
    requires forall step :: step in steps ==> !step.Publish?
    ensures FirstPublished(steps + [Publish(t, b)] + rest) == Some(b)
  {
    var all := steps + [Publish(t, b)] + rest;
    if steps != [] {
      assert steps[0] in steps && forall step :: step in steps[1..] ==> step in steps;
      FirstAfterCalm(steps[1..], t, b, rest);
      assert all[1..] == steps[1..] + [Publish(t, b)] + rest;
    }
  }

  /** From an idle state a new budget can be registered uncancelled. */
  lemma RegisterFresh(s: State, calm: seq<Step>, u: State) returns (steps: seq<Step>, t: State, b: BudgetId)
    requires Calm(s, calm, u) && Idle(u)
    ensures IsRun(s, steps, t) && HandlerFree(steps) && FirstPublished(steps) == Some(b)
    ensures HasReturned(t, b) && b !in t.cancelled
  {
    b := Unused(u.created + u.cancelled);
    var r := Unused(u.registrations.Keys);
    assert u.registering == map[];
    CalmMore(s, calm, u, Create(b));
    var before, m := calm + [Create(b)], Next(u, Create(b));
    var p := Next(m, Publish(0, b));
    RunAppend(s, before, m, Publish(0, b));
    t := Next(p, Swap(0, r));
    RunAppend(s, before + [Publish(0, b)], p, Swap(0, r));
    steps := before + [Publish(0, b)] + [Swap(0, r)];
    FirstAfterCalm(before, 0, b, [Swap(0, r)]);
  }

  /** A drop leaves a latch that is bound to cancel the next registration, in every run without
      further handler steps, exactly when the latch was set and no live owner was in the slot. */
  lemma NextIsCancelledExactly(s: State, r: RegistrationId)
    requires Reachable(s) && Enabled(s, Drop(r))
    ensures CancelsNext(Next(s, Drop(r))) <==> s.interrupted && s.Upgraded().None?
  {
    var run :| IsRun(INITIAL, run, s);
    OwnerHeldRun(INITIAL, run, s);
    var n := Next(s, Drop(r));
    SlotClaimKept(s, Drop(r));
    LiveClaimKept(s, Drop(r));
    OwnerHeldKept(s, Drop(r));
    assert Armed(n) <==> s.interrupted && s.Upgraded().None? by {
      assert s.registrations[r] in s.alive ==> LiveRegistration(s, r);
    }
    if Armed(n) {
      forall steps, t, b | IsRun(n, steps, t) && HandlerFree(steps) && FirstPublished(steps) == Some(b)
                           && HasReturned(t, b)
        ensures b in t.cancelled
      {
        ArmedRun(n, steps, t, b);
      }
    } else {
      var calm, u := ToIdle(n);
      var steps, t, b := RegisterFresh(n, calm, u);
    }
  }

  lemma {:induction false} RunAppend(s: State, steps: seq<Step>, m: State, step: Step)
    requires IsRun(s, steps, m) && Enabled(m, step)
    ensures IsRun(s, steps + [step], Next(m, step))
    decreases |steps|
  {
    if steps == [] {
      assert IsRun(Next(s, step), [], Next(m, step));
      assert (steps + [step])[1..] == [];
    } else {
      RunAppend(Next(s, steps[0]), steps[1..], m, step);
      assert (steps + [step])[1..] == steps[1..] + [step];
    }
  }

  lemma Extend(steps: seq<Step>, s: State, more: seq<Step>) returns (all: seq<Step>, t: State)
    requires IsRun(INITIAL, steps, s) && 1 <= |more| <= 2 && Enabled(s, more[0])
    requires |more| == 2 ==> Enabled(Next(s, more[0]), more[1])
    ensures all == steps + more && IsRun(INITIAL, all, t)
    ensures t == if |more| == 1 then Next(s, more[0]) else Next(Next(s, more[0]), more[1])
  {
    RunAppend(INITIAL, steps, s, more[0]);
    all, t := steps + [more[0]], Next(s, more[0]);
    if |more| == 2 {
      RunAppend(INITIAL, all, t, more[1]);
      all, t := all + [more[1]], Next(t, more[1]);
    }
  }

  lemma InterruptedRun() returns (steps: seq<Step>, s: State)
    ensures IsRun(INITIAL, steps, s)
    ensures s == State(true, Some(1), false, {1}, {1}, {1}, map[], map[0 := 1], map[], {1})
  {
    steps, s := [], INITIAL;
    steps, s := Extend(steps, s, [Create(1), Publish(0, 1)]);
    steps, s := Extend(steps, s, [Swap(0, 0), Store(0)]);
    steps, s := Extend(steps, s, [Capture(0), CancelCaptured(0)]);
    assert s.handlers == map[] && s.registrations == map[0 := 1] && s.registering == map[];
    assert s.alive == s.created == s.cancelled == s.owed == {1};
  }

  const CALM_STEPS: seq<Step> :=
    [Release(1), Drop(0), Create(2), Publish(0, 2)] + [Swap(0, 1), CancelOwn(0, 1)]

  lemma RestartedRun(steps: seq<Step>, s0: State) returns (s: State)
    requires IsRun(INITIAL, steps, s0)
    requires s0 == State(true, Some(1), false, {1}, {1}, {1}, map[], map[0 := 1], map[], {1})
    ensures IsRun(INITIAL, steps + CALM_STEPS, s)
    ensures s.alive == {2} && s.registrations == map[1 := 2] && 2 in s.cancelled
  {
    var all;
    all, s := Extend(steps, s0, [Release(1), Drop(0)]);
    all, s := Extend(all, s, [Create(2), Publish(0, 2)]);
    all, s := Extend(all, s, [Swap(0, 1), CancelOwn(0, 1)]);
    assert all == steps + CALM_STEPS;
  }

  /** Such a run: the first budget is interrupted and cancelled, its last strong reference goes
      before its registration does, and the second budget starts cancelled although no handler step
      falls after the first `calm` steps, before which the second budget did not even exist. */
  lemma StaleLatchCancelsNextRun() returns (steps: seq<Step>, s: State, calm: nat, r: RegistrationId)
    ensures IsRun(INITIAL, steps, s) && calm <= |steps|
    ensures LiveRegistration(s, r) && s.registrations[r] in s.cancelled
    ensures Create(s.registrations[r]) in steps[calm..]
    ensures forall step :: step in steps[calm..] ==> !step.OfHandler()
  {
    var before, s0 := InterruptedRun();
    s := RestartedRun(before, s0);
    steps, calm, r := before + CALM_STEPS, |before|, 1;
    assert steps[calm..] == CALM_STEPS;
    assert CALM_STEPS[2] == Create(2);
  }
}

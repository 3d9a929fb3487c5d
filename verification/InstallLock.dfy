/** The installer's double-checked publication under an exclusively created lock file, as a state
    machine: any number of installer processes interleave their file system calls. */
module InstallLock {
  import opened SourceGraphs

  type Pid = nat

  /** Where a process stands: the call it makes next, or how it ended. */
  datatype Pc =
    | Start | Check | Open | Write | Stat | Unlink | Wait
    | Recheck | Install | Build | Verify(ok: bool) | Release(ok: bool) | Remove(ok: bool)
    | Returned | Failed | Crashed
  {
    /** Between creating the lock file and removing it. */
    predicate Holding() {
      Write? || Recheck? || MayPublish() || Verify? || Release? || Remove?
    }
    /** Inside the release installation or the build from source. */
    predicate MayPublish() {
      Install? || Build?
    }
    predicate Ended() {
      Returned? || Failed? || Crashed?
    }
  }

  /** The lock file: the process that created it, and whether it has written its owner line. */
  datatype LockFile = LockFile(creator: Pid, written: bool)

  /** `publishers` is history: the processes that have renamed a binary into place. */
  datatype State = State(binary: bool, lock: Option<LockFile>, pcs: map<Pid, Pc>, publishers: set<Pid>)

  /** `succeeds` says whether the call, or the wait, of a step does. */
  datatype Step =
    | Proceed(p: Pid, succeeds: bool)
    | SeeStale(p: Pid)
    | Publish(p: Pid)
    | Crash(p: Pid)

  predicate Enabled(s: State, step: Step) {
    step.p in s.pcs && !s.pcs[step.p].Ended() &&
    match step
    case Proceed(_, _) => true
    case SeeStale(p) => s.pcs[p].Stat? && s.lock.Some?
    case Publish(p) => s.pcs[p].MayPublish()
    case Crash(_) => true
  }

  function Next(s: State, step: Step): State
    requires Enabled(s, step)
  {
    match step
    case SeeStale(p) => s.(pcs := s.pcs[p := Unlink])
    case Publish(p) => s.(binary := true, publishers := s.publishers + {p})
    case Crash(p) => s.(pcs := s.pcs[p := Crashed])
    case Proceed(p, succeeds) => Proceeded(s, p, succeeds).(pcs := s.pcs[p := NextPc(s, p, succeeds)])
  }

  /** The files after the next call of `p`. */
  function Proceeded(s: State, p: Pid, succeeds: bool): State
    requires p in s.pcs
  {
    match s.pcs[p]
    case Open => if s.lock.None? && succeeds then s.(lock := Some(LockFile(p, false))) else s
    // the owner line goes to the file this process created, wherever that file is now
    case Write => if s.lock == Some(LockFile(p, false)) && succeeds then s.(lock := Some(LockFile(p, true))) else s
    case Unlink => s.(lock := None)
    case Remove(_) => s.(lock := None)
    case _ => s
  }

  function NextPc(s: State, p: Pid, succeeds: bool): Pc
    requires p in s.pcs && !s.pcs[p].Ended()
  {
    match s.pcs[p]
    case Start => if s.binary then Returned else Check
    case Check => if s.binary then Returned else Open
    case Open => if s.lock.Some? then Stat else if succeeds then Write else Failed
    case Write => if succeeds then Recheck else Failed
    case Stat => if s.lock.None? then Check else if succeeds then Wait else Failed
    case Unlink => Check
    case Wait => Check
    case Recheck => if s.binary then Release(true) else Install
    case Install => if succeeds then Verify(true) else Build
    case Build => if succeeds then Verify(true) else Release(false)
    case Verify(_) => if s.binary then Release(true) else Release(false)
    case Release(ok) =>
      if s.lock == Some(LockFile(p, true)) then Remove(ok) else if ok then Returned else Failed
    case Remove(ok) => if ok then Returned else Failed
  }

  ghost predicate Initial(s: State) {
    s.lock.None? && s.publishers == {} && forall p :: p in s.pcs ==> s.pcs[p].Start?
  }

  ghost predicate IsRun(s: State, steps: seq<Step>, t: State)
    decreases |steps|
  {
    if steps == [] then s == t
    else Enabled(s, steps[0]) && IsRun(Next(s, steps[0]), steps[1..], t)
  }

  // ---------- the condition on stale locks ----------

  /** The lock file belongs to a process that still works under it. */
  predicate LiveLock(s: State) {
    s.lock.Some? && s.lock.value.creator in s.pcs && s.pcs[s.lock.value.creator].Holding()
  }

  /** The step unlinks, as stale, the lock file of a process that still works under it. */
  predicate RobsHolder(s: State, step: Step)
    requires Enabled(s, step)
  {
    step.Proceed? && s.pcs[step.p].Unlink? && LiveLock(s)
  }

  ghost predicate NoHolderRobbed(s: State, steps: seq<Step>)
    decreases |steps|
  {
    steps == [] ||
    (Enabled(s, steps[0]) ==> !RobsHolder(s, steps[0]) && NoHolderRobbed(Next(s, steps[0]), steps[1..]))
  }

  // ---------- what every such run keeps ----------

  /** Whoever works under the lock created the file that is there. */
  ghost predicate HolderOwnsLock(s: State) {
    forall p :: p in s.pcs && s.pcs[p].Holding() ==> s.lock == Some(LockFile(p, !s.pcs[p].Write?))
  }

  /** A binary was there from the beginning or has one publisher, and nobody who may publish now
      would be a second one. */
  ghost predicate OnePublisher(s: State, preinstalled: bool) {
    && (s.binary <==> preinstalled || s.publishers != {})
    && (forall p, q :: p in s.publishers && q in s.publishers ==> p == q)
    && (preinstalled ==> s.publishers == {})
    && (forall p :: p in s.pcs && s.pcs[p].MayPublish() ==> !preinstalled && s.publishers <= {p})
  }

  lemma HolderOwnsLockKept(s: State, step: Step)
    requires HolderOwnsLock(s) && Enabled(s, step) && !RobsHolder(s, step)
    ensures HolderOwnsLock(Next(s, step))
  {
    var n := Next(s, step);
    forall p | p in n.pcs && n.pcs[p].Holding()
      ensures n.lock == Some(LockFile(p, !n.pcs[p].Write?))
    {
      if p != step.p {
        assert s.pcs[p] == n.pcs[p];
      }
    }
  }

  lemma OnePublisherKept(s: State, step: Step, preinstalled: bool)
    requires HolderOwnsLock(s) && OnePublisher(s, preinstalled) && Enabled(s, step)
    ensures OnePublisher(Next(s, step), preinstalled)
  {
    var n := Next(s, step);
    forall p | p in n.pcs && n.pcs[p].MayPublish()
      ensures !preinstalled && n.publishers <= {p}
    {
      if p != step.p {
        assert s.pcs[p] == n.pcs[p];
      }
    }
  }

  lemma {:induction false} RunKeeps(s: State, steps: seq<Step>, t: State, preinstalled: bool)
    requires HolderOwnsLock(s) && OnePublisher(s, preinstalled)
    requires IsRun(s, steps, t) && NoHolderRobbed(s, steps)
    ensures HolderOwnsLock(t) && OnePublisher(t, preinstalled)
    decreases |steps|
  {
    if steps != [] {
      HolderOwnsLockKept(s, steps[0]);
      OnePublisherKept(s, steps[0], preinstalled);
      RunKeeps(Next(s, steps[0]), steps[1..], t, preinstalled);
    }
  }

  // ---------- safety ----------

  /** At most one process is between acquiring and releasing the lock, and at most one ever
      publishes a binary; none does when a binary was there to begin with. */
  lemma MutualExclusion(s: State, steps: seq<Step>, t: State, p: Pid, q: Pid)
    requires Initial(s) && IsRun(s, steps, t) && NoHolderRobbed(s, steps)
    ensures p in t.pcs && q in t.pcs && t.pcs[p].Holding() && t.pcs[q].Holding() ==> p == q
    ensures p in t.publishers && q in t.publishers ==> p == q
    ensures s.binary ==> t.publishers == {}
    ensures t.binary && !s.binary ==> exists r :: t.publishers == {r}
  {
    RunKeeps(s, steps, t, s.binary);
    if t.publishers != {} {
      var r :| r in t.publishers;
      assert t.publishers == {r};
    }
  }

  /** Nobody is robbed in a run in which no lock file outlives the stale limit. */
  lemma {:induction false} FreshLocksRobNobody(s: State, steps: seq<Step>)
    requires forall p :: p in s.pcs ==> !s.pcs[p].Unlink?
    requires forall step :: step in steps ==> !step.SeeStale?
    ensures NoHolderRobbed(s, steps)
    decreases |steps|
  {
    if steps != [] && Enabled(s, steps[0]) {
      assert steps[0] in steps && forall step :: step in steps[1..] ==> step in steps;
      FreshLocksRobNobody(Next(s, steps[0]), steps[1..]);
    }
  }

  /** Whatever becomes of locks: a process returns only when the binary is there, and it stays. */
  lemma {:induction false} ReturnsOnlyInstalled(s: State, steps: seq<Step>, t: State)
    requires IsRun(s, steps, t)
    requires forall p :: p in s.pcs ==> Promised(s, s.pcs[p])
    ensures s.binary ==> t.binary
    ensures forall p :: p in t.pcs && t.pcs[p].Returned? ==> t.binary
    decreases |steps|
  {
    if steps == [] {
      assert forall p :: p in t.pcs ==> Promised(t, t.pcs[p]);
    } else {
      var n := Next(s, steps[0]);
      forall p | p in n.pcs
        ensures Promised(n, n.pcs[p])
      {
        assert Promised(s, s.pcs[p]);
      }
      ReturnsOnlyInstalled(n, steps[1..], t);
    }
  }

  /** A process that is about to return, or has, relies on the binary. */
  predicate Promised(s: State, pc: Pc) {
    pc.Returned? || pc == Release(true) || pc == Remove(true) ==> s.binary
  }

  // ---------- what staleness does ----------

  /** The lock file was left behind by a process that is gone. */
  predicate Orphaned(s: State) {
    s.lock.Some? && s.lock.value.creator in s.pcs && s.pcs[s.lock.value.creator].Ended()
  }

  /** Without stale removal an orphaned lock file stays, and nobody ever publishes again. */
  lemma {:induction false} OrphanBlocks(s: State, steps: seq<Step>, t: State)
    requires HolderOwnsLock(s) && Orphaned(s) && IsRun(s, steps, t)
    requires forall p :: p in s.pcs ==> !s.pcs[p].Unlink?
    requires forall step :: step in steps ==> !step.SeeStale?
    ensures t.lock == s.lock && t.publishers == s.publishers && t.binary == s.binary
    decreases |steps|
  {
    if steps != [] {
      var step := steps[0];
      assert step in steps && forall x :: x in steps[1..] ==> x in steps;
      assert !RobsHolder(s, step);
      HolderOwnsLockKept(s, step);
      OrphanBlocks(Next(s, step), steps[1..], t);
    }
  }

  /** The condition is needed: whoever unlinks a working installer's lock, while no binary is there,
      can go on to hold the lock beside it. */
  lemma RobberyEndsExclusion(s: State, p: Pid, q: Pid) returns (steps: seq<Step>, t: State)
    requires Enabled(s, Proceed(p, true)) && RobsHolder(s, Proceed(p, true)) && !s.binary
    requires q == s.lock.value.creator
    ensures IsRun(s, steps, t) && p != q && {p, q} <= t.pcs.Keys && t.pcs[p].Holding() && t.pcs[q].Holding()
  {
    var step := Proceed(p, true);
    steps, t := [], s;
    for i := 0 to 3
      invariant IsRun(s, steps, t)
      invariant p in t.pcs && q in t.pcs && p != q && !t.binary && t.pcs[q] == s.pcs[q]
      invariant t.pcs[p] == (if i == 0 then Unlink else if i == 1 then Check else if i == 2 then Open else Write)
      invariant i > 0 ==> if i < 3 then t.lock == None else t.lock == Some(LockFile(p, false))
    {
      RunAppend(s, steps, t, step);
      steps, t := steps + [step], Next(t, step);
    }
  }

  lemma {:induction false} RunAppend(s: State, steps: seq<Step>, t: State, step: Step)
    requires IsRun(s, steps, t) && Enabled(t, step)
    ensures IsRun(s, steps + [step], Next(t, step))
    decreases |steps|
  {
    if steps == [] {
      assert steps + [step] == [step];
    } else {
      RunAppend(Next(s, steps[0]), steps[1..], t, step);
      assert (steps + [step])[1..] == steps[1..] + [step];
    }
  }

  /** Every stale lock file is an orphan when it is seen to be stale. */
  ghost predicate OnlyOrphansAge(s: State, steps: seq<Step>)
    decreases |steps|
  {
    steps == [] ||
    (Enabled(s, steps[0]) ==>
       (steps[0].SeeStale? ==> Orphaned(s)) && OnlyOrphansAge(Next(s, steps[0]), steps[1..]))
  }

  lemma {:induction false} OneMoreStep(s: State, steps: seq<Step>, t: State, step: Step)
    requires IsRun(s, steps, t) && OnlyOrphansAge(s, steps)
    requires Enabled(t, step) && (step.SeeStale? ==> Orphaned(t))
    ensures IsRun(s, steps + [step], Next(t, step)) && OnlyOrphansAge(s, steps + [step])
    decreases |steps|
  {
    if steps == [] {
      assert steps + [step] == [step];
      assert OnlyOrphansAge(Next(t, step), []);
    } else {
      OneMoreStep(Next(s, steps[0]), steps[1..], t, step);
      assert (steps + [step])[1..] == steps[1..] + [step];
    }
  }

  lemma ProceedThrice(s: State, steps: seq<Step>, t: State, p: Pid) returns (more: seq<Step>, u: State)
    requires IsRun(s, steps, t) && OnlyOrphansAge(s, steps)
    requires p in t.pcs && !t.binary && (t.pcs[p].Start? || t.pcs[p].Unlink?)
    ensures IsRun(s, more, u) && OnlyOrphansAge(s, more)
    ensures !u.binary && u.publishers == t.publishers
    ensures if t.pcs[p].Start? && t.lock.Some?
            then u.lock == t.lock && u.pcs == t.pcs[p := Stat]
            else u.lock == Some(LockFile(p, false)) && u.pcs == t.pcs[p := Write]
  {
    var step := Proceed(p, true);
    var t1 := Next(t, step);
    OneMoreStep(s, steps, t, step);
    var t2 := Next(t1, step);
    OneMoreStep(s, steps + [step], t1, step);
    u := Next(t2, step);
    OneMoreStep(s, steps + [step] + [step], t2, step);
    more := steps + [step] + [step] + [step];
  }

  /** Two processes see the lock file that a third has left behind. */
  lemma OrphanSeenTwice() returns (s: State, steps: seq<Step>, t: State)
    ensures Initial(s) && IsRun(s, steps, t) && OnlyOrphansAge(s, steps)
    ensures {1, 2} <= t.pcs.Keys && t.pcs[1].Unlink? && t.pcs[2].Unlink? && !t.binary && t.publishers == {}
  {
    s := State(false, None, map[0 := Start, 1 := Start, 2 := Start], {});
    steps, t := ProceedThrice(s, [], s, 0);
    OneMoreStep(s, steps, t, Crash(0));
    steps, t := steps + [Crash(0)], Next(t, Crash(0));
    steps, t := ProceedThrice(s, steps, t, 1);
    OneMoreStep(s, steps, t, SeeStale(1));
    steps, t := steps + [SeeStale(1)], Next(t, SeeStale(1));
    steps, t := ProceedThrice(s, steps, t, 2);
    OneMoreStep(s, steps, t, SeeStale(2));
    steps, t := steps + [SeeStale(2)], Next(t, SeeStale(2));
  }

  /** Removing by age only the files of processes that are gone is not enough: two processes may see
      the same orphan, and the later one unlink the lock the earlier one has put in its place. */
  lemma OrphanRemovalRaces() returns (s: State, steps: seq<Step>, t: State)
    ensures Initial(s) && IsRun(s, steps, t) && OnlyOrphansAge(s, steps)
    ensures {1, 2} <= t.pcs.Keys && t.pcs[1].Write? && t.pcs[2].Write? && !t.binary && t.publishers == {}
  {
    s, steps, t := OrphanSeenTwice();
    steps, t := ProceedThrice(s, steps, t, 1);
    steps, t := ProceedThrice(s, steps, t, 2);
  }

  /** From its owner line to its publication, for a process that finds no binary yet. */
  lemma ProceedToInstall(s: State, steps: seq<Step>, t: State, p: Pid) returns (more: seq<Step>, u: State)
    requires IsRun(s, steps, t) && OnlyOrphansAge(s, steps)
    requires p in t.pcs && t.pcs[p].Write? && !t.binary
    ensures IsRun(s, more, u) && OnlyOrphansAge(s, more)
    ensures u.pcs == t.pcs[p := Install] && !u.binary && u.publishers == t.publishers
  {
    var step := Proceed(p, true);
    var t1 := Next(t, step);
    OneMoreStep(s, steps, t, step);
    u := Next(t1, step);
    OneMoreStep(s, steps + [step], t1, step);
    more := steps + [step] + [step];
  }

  lemma OrphanRemovalPublishesTwice() returns (s: State, steps: seq<Step>, t: State)
    ensures Initial(s) && IsRun(s, steps, t) && OnlyOrphansAge(s, steps)
    ensures exists p, q :: p in t.publishers && q in t.publishers && p != q
  {
    s, steps, t := OrphanRemovalRaces();
    steps, t := ProceedToInstall(s, steps, t, 1);
    steps, t := ProceedToInstall(s, steps, t, 2);
    OneMoreStep(s, steps, t, Publish(1));
    steps, t := steps + [Publish(1)], Next(t, Publish(1));
    OneMoreStep(s, steps, t, Publish(2));
    steps, t := steps + [Publish(2)], Next(t, Publish(2));
    assert 1 in t.publishers && 2 in t.publishers;
  }
}

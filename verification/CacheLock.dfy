/**
 The source-cache lock: several processes, one directory on a shared disk, atomic
 renames, owner tokens, liveness probes, and a process may die at any step.
 */
module CacheLock {
  type Token = nat
  type Pid = nat

  // ----- the disk

  /** A directory is empty, names its owner, or holds something this protocol cannot read. */
  datatype Content = Empty | Owner(token: Token) | Unreadable

  datatype Path = Lock | Prepared(t: Token) | Recovered(t: Token) | Released(t: Token)

  type Disk = map<Path, Content>

  /** A rename fails when there is nothing to move, or a nonempty directory in the way. */
  predicate CanRename(d: Disk, from: Path, to: Path) {
    from in d && (to in d ==> d[to] == Empty)
  }

  function Rename(d: Disk, from: Path, to: Path): Disk {
    if from != to && CanRename(d, from, to) then (d - {from})[to := d[from]] else d
  }

  predicate Holds(d: Disk, p: Path, t: Token) {
    p in d && d[p] == Owner(t)
  }

  /** What an inspection of the lock path can report. */
  datatype View = Absent | OwnedBy(t: Token) | Unclear

  /** An unclear report covers the path vanishing between the two system calls of an inspection. */
  predicate Sees(d: Disk, v: View) {
    match v
    case Absent => Lock !in d
    case OwnedBy(t) => Holds(d, Lock, t)
    case Unclear => Lock in d ==> !d[Lock].Owner?
  }

  // ----- attempts to acquire, one token each

  datatype Pc =
    | Preparing | Trying | Publishing
    | Recovering(o: Token) | Probing(o: Token) | Reclaiming(o: Token)
    | Holding | Checking | Retiring | Erasing | ErasingDirectory
    | Abandoning | AbandoningDirectory | Gone

  /** Every attempt has a place in its code and a process. Processes that died stay dead. */
  datatype System = System(disk: Disk, pcs: map<Token, Pc>, process: map<Token, Pid>, dead: set<Pid>) {
    predicate Alive(t: Token) { t in process && process[t] !in dead }

    predicate At(t: Token, pc: Pc) { t in pcs && pcs[t] == pc }

    function Go(t: Token, pc: Pc): System { this.(pcs := pcs[t := pc]) }
  }

  datatype Step =
    | Begin(t: Token, p: Pid)
    | Write(t: Token)
    | Look(t: Token, seen: View)
    | Publish(t: Token)
    | LookAgain(t: Token, seen: View)
    | Verdict(t: Token, dead: bool)
    | Reclaim(t: Token)
    | Release(t: Token)
    | Check(t: Token, seen: View)
    | Retire(t: Token)
    | EraseFile(t: Token)
    | EraseDirectory(t: Token)
    | GiveUp(t: Token)
    | Crash(p: Pid)

  /** What may happen next. A probe reports a process dead only if it is; it may report a dead one alive. */
  predicate Enabled(c: System, s: Step) {
    match s
    case Begin(t, p) => t !in c.pcs && t !in c.process && p !in c.dead
    case Crash(p) => p !in c.dead
    case Release(t) => c.Alive(t) && t in c.pcs && !BeforeRelease(c.pcs[t])
    case Write(t) => c.Alive(t) && c.At(t, Preparing)
    case Look(t, seen) => c.Alive(t) && c.At(t, Trying) && Sees(c.disk, seen)
    case Publish(t) => c.Alive(t) && c.At(t, Publishing)
    case LookAgain(t, seen) => c.Alive(t) && t in c.pcs && c.pcs[t].Recovering? && Sees(c.disk, seen)
    case Verdict(t, dead) => c.Alive(t) && t in c.pcs && c.pcs[t].Probing? && (dead ==> !c.Alive(c.pcs[t].o))
    case Reclaim(t) => c.Alive(t) && t in c.pcs && c.pcs[t].Reclaiming?
    case Check(t, seen) => c.Alive(t) && c.At(t, Checking) && Sees(c.disk, seen)
    case Retire(t) => c.Alive(t) && c.At(t, Retiring)
    case EraseFile(t) => c.Alive(t) && (c.At(t, Erasing) || c.At(t, Abandoning))
    case EraseDirectory(t) => c.Alive(t) && (c.At(t, ErasingDirectory) || c.At(t, AbandoningDirectory))
    case GiveUp(t) => c.Alive(t) && c.At(t, Trying)
  }

  predicate BeforeRelease(pc: Pc) {
    !pc.Holding? && !pc.Checking? && !pc.Retiring? && !pc.Erasing? && !pc.ErasingDirectory? && !pc.Gone?
  }

  /** The directory that a recursive removal works on. */
  function Doomed(t: Token, pc: Pc): Path {
    if pc.Erasing? || pc.ErasingDirectory? then Released(t) else Prepared(t)
  }

  function Do(c: System, s: Step): System
    requires Enabled(c, s)
  {
    match s
    case Begin(t, p) =>
      System(c.disk[Prepared(t) := Empty], c.pcs[t := Preparing], c.process[t := p], c.dead)
    case Crash(p) => c.(dead := c.dead + {p})
    case Write(t) => c.(disk := c.disk[Prepared(t) := Owner(t)]).Go(t, Trying)
    case Look(t, seen) =>
      c.Go(t, match seen case Absent => Publishing case OwnedBy(o) => Recovering(o) case Unclear => Trying)
    case Publish(t) =>
      c.(disk := Rename(c.disk, Prepared(t), Lock)).Go(t, if CanRename(c.disk, Prepared(t), Lock) then Holding else Trying)
    case LookAgain(t, seen) =>
      c.Go(t, if seen == OwnedBy(c.pcs[t].o) then Probing(c.pcs[t].o) else Trying)
    case Verdict(t, dead) => c.Go(t, if dead then Reclaiming(c.pcs[t].o) else Trying)
    case Reclaim(t) => c.(disk := Rename(c.disk, Lock, Recovered(c.pcs[t].o))).Go(t, Trying)
    case Release(t) => if c.pcs[t].Holding? then c.Go(t, Checking) else c
    case Check(t, seen) => c.Go(t, if seen == OwnedBy(t) then Retiring else Gone)
    case Retire(t) =>
      c.(disk := Rename(c.disk, Lock, Released(t))).Go(t, if CanRename(c.disk, Lock, Released(t)) then Erasing else Gone)
    case EraseFile(t) =>
      var p := Doomed(t, c.pcs[t]);
      c.(disk := if p in c.disk then c.disk[p := Empty] else c.disk)
       .Go(t, if c.pcs[t].Erasing? then ErasingDirectory else AbandoningDirectory)
    case EraseDirectory(t) => c.(disk := c.disk - {Doomed(t, c.pcs[t])}).Go(t, Gone)
    case GiveUp(t) => c.Go(t, Abandoning)
  }

  /** A dead verdict comes while the lock is still the dead owner's, or its tombstone already stands. */
  predicate Timely(c: System, s: Step) {
    s.Verdict? && s.dead && s.t in c.pcs && c.pcs[s.t].Probing? ==>
      var o := c.pcs[s.t].o; Holds(c.disk, Lock, o) || Recovered(o) in c.disk
  }

  /** Nothing of this protocol on the disk yet, save perhaps a lock, empty or not, that names no owner. */
  predicate Initial(c: System) {
    c.pcs == map[] && c.process == map[] && (forall p | p in c.disk :: p == Lock && !c.disk[p].Owner?)
  }

  ghost predicate Run(c: System, steps: seq<Step>, c': System)
    decreases |steps|
  {
    if steps == [] then c == c' else Enabled(c, steps[0]) && Run(Do(c, steps[0]), steps[1..], c')
  }

  ghost predicate TimelyRun(c: System, steps: seq<Step>, c': System)
    decreases |steps|
  {
    if steps == [] then c == c'
    else Enabled(c, steps[0]) && Timely(c, steps[0]) && TimelyRun(Do(c, steps[0]), steps[1..], c')
  }

  // ----- what holds in every run

  /** Attempts whose prepared directory is ready. */
  predicate Ready(pc: Pc) {
    pc.Trying? || pc.Publishing? || pc.Recovering? || pc.Probing? || pc.Reclaiming?
  }

  /** Attempts that published their directory and did not move it away yet. */
  predicate Published(pc: Pc) {
    pc.Holding? || pc.Checking? || pc.Retiring?
  }

  predicate Pursuing(pc: Pc) {
    pc.Recovering? || pc.Probing? || pc.Reclaiming?
  }

  /** The lock path is taken by something that names no owner. */
  predicate LegacyLock(d: Disk) {
    Lock in d && !d[Lock].Owner?
  }

  /** What is true of the directories named for one attempt; none gets past a lock without owner. */
  predicate SaneAt(c: System, t: Token) {
    && (t in c.pcs <==> t in c.process)
    && (Recovered(t) in c.disk ==> c.disk[Recovered(t)] != Empty)
    && (Prepared(t) in c.disk || Released(t) in c.disk ==> t in c.pcs)
    && (t in c.pcs && Ready(c.pcs[t]) ==> Holds(c.disk, Prepared(t), t))
    && (t in c.pcs && (Published(c.pcs[t]) || BeforeRelease(c.pcs[t])) ==> Released(t) !in c.disk)
    && (t in c.pcs && LegacyLock(c.disk) ==> !c.pcs[t].Publishing? && !Published(c.pcs[t]) && !Pursuing(c.pcs[t]))
  }

  /** Tombstones are nonempty, and directories belong to the attempt they are named for. */
  ghost predicate Sane(c: System) {
    forall t :: SaneAt(c, t)
  }

  lemma StepSane(c: System, s: Step)
    requires Sane(c) && Enabled(c, s)
    ensures Sane(Do(c, s))
    ensures LegacyLock(Do(c, s).disk) <==> LegacyLock(c.disk)
    ensures LegacyLock(c.disk) ==> Do(c, s).disk[Lock] == c.disk[Lock]
  {
    var c' := Do(c, s);
    assert !s.Crash? ==> SaneAt(c, s.t);
    StepKeepsLegacy(c, s);
    forall t
      ensures SaneAt(c', t)
    {
      assert SaneAt(c, t);
      StepSaneAt(c, s, t);
    }
  }

  lemma StepKeepsLegacy(c: System, s: Step)
    requires Enabled(c, s) && (s.Crash? || SaneAt(c, s.t))
    ensures LegacyLock(Do(c, s).disk) <==> LegacyLock(c.disk)
    ensures LegacyLock(c.disk) ==> Do(c, s).disk[Lock] == c.disk[Lock]
  {
  }

  lemma StepSaneAt(c: System, s: Step, t: Token)
    requires Enabled(c, s) && SaneAt(c, t) && (s.Crash? || SaneAt(c, s.t))
    requires LegacyLock(Do(c, s).disk) <==> LegacyLock(c.disk)
    ensures SaneAt(Do(c, s), t)
  {
    if s.Crash? || s.t != t {
      OtherStaysSane(c, s, t);
    } else {
      OwnStepSane(c, s);
    }
  }

  lemma OtherStaysSane(c: System, s: Step, t: Token)
    requires Enabled(c, s) && SaneAt(c, t) && (s.Crash? || (s.t != t && SaneAt(c, s.t)))
    requires LegacyLock(Do(c, s).disk) <==> LegacyLock(c.disk)
    ensures SaneAt(Do(c, s), t)
  {
  }

  lemma OwnStepSane(c: System, s: Step)
    requires Enabled(c, s) && !s.Crash? && SaneAt(c, s.t)
    requires LegacyLock(Do(c, s).disk) <==> LegacyLock(c.disk)
    ensures SaneAt(Do(c, s), s.t)
  {
  }

  // ----- what holds in every timely run

  predicate GuardedAt(c: System, t: Token) {
    && (Recovered(t) in c.disk ==> t in c.pcs && Published(c.pcs[t]) && !c.Alive(t))
    && (Holds(c.disk, Lock, t) ==> t in c.pcs && Published(c.pcs[t]) && Recovered(t) !in c.disk)
    && (t in c.pcs && Published(c.pcs[t]) && c.Alive(t) ==> Holds(c.disk, Lock, t))
    && (t in c.pcs && Pursuing(c.pcs[t]) ==> c.pcs[t].o in c.pcs)
    && (t in c.pcs && c.pcs[t].Reclaiming? ==>
          var o := c.pcs[t].o; !c.Alive(o) && (Holds(c.disk, Lock, o) || Recovered(o) in c.disk))
  }

  /**
   The lock path names the one live attempt that holds the lock, if there is one; who is about to
   reclaim a lock finds it still there, its owner dead, or finds the tombstone in the way.
   */
  ghost predicate Guarded(c: System) {
    Sane(c) && forall t :: GuardedAt(c, t)
  }

  lemma StepGuarded(c: System, s: Step)
    requires Guarded(c) && Enabled(c, s) && Timely(c, s)
    ensures Guarded(Do(c, s))
  {
    StepSane(c, s);
    forall t
      ensures GuardedAt(Do(c, s), t)
    {
      StepGuardedAt(c, s, t);
    }
  }

  lemma StepGuardedAt(c: System, s: Step, t: Token)
    requires Guarded(c) && Enabled(c, s) && Timely(c, s)
    ensures GuardedAt(Do(c, s), t)
  {
    hide GuardedAt, Do;
    match s
    case Begin(u, p) => BeginGuardedAt(c, u, p, t);
    case Look(u, seen) => LookGuardedAt(c, u, seen, t);
    case Publish(u) => PublishGuardedAt(c, u, t);
    case Reclaim(u) => ReclaimGuardedAt(c, u, t);
    case Retire(u) => RetireGuardedAt(c, u, t);
    case _ => OthersGuardedAt(c, s, t);
  }

  lemma BeginGuardedAt(c: System, u: Token, p: Pid, t: Token)
    requires Guarded(c) && Enabled(c, Begin(u, p))
    ensures GuardedAt(Do(c, Begin(u, p)), t)
  {
    assert GuardedAt(c, t) && SaneAt(c, t) && GuardedAt(c, u) && SaneAt(c, u);
    if t in c.pcs && Pursuing(c.pcs[t]) {
      assert GuardedAt(c, c.pcs[t].o);
    }
  }

  lemma LookGuardedAt(c: System, u: Token, seen: View, t: Token)
    requires Guarded(c) && Enabled(c, Look(u, seen))
    ensures GuardedAt(Do(c, Look(u, seen)), t)
  {
    assert GuardedAt(c, t) && SaneAt(c, t) && (seen.OwnedBy? ==> GuardedAt(c, seen.t));
  }

  /** Steps that leave alone what is at the lock path and begin nothing. */
  lemma OthersGuardedAt(c: System, s: Step, t: Token)
    requires Guarded(c) && Enabled(c, s) && Timely(c, s)
    requires !s.Begin? && !s.Look? && !s.Publish? && !s.Reclaim? && !s.Retire?
    ensures GuardedAt(Do(c, s), t)
  {
    assert GuardedAt(c, t) && SaneAt(c, t);
  }

  lemma PublishGuardedAt(c: System, u: Token, t: Token)
    requires Guarded(c) && Enabled(c, Publish(u))
    ensures GuardedAt(Do(c, Publish(u)), t)
  {
    assert GuardedAt(c, t) && GuardedAt(c, u) && SaneAt(c, u);
    if t in c.pcs && Pursuing(c.pcs[t]) {
      assert GuardedAt(c, c.pcs[t].o);
    }
  }

  lemma ReclaimGuardedAt(c: System, u: Token, t: Token)
    requires Guarded(c) && Enabled(c, Reclaim(u))
    ensures GuardedAt(Do(c, Reclaim(u)), t)
  {
    assert GuardedAt(c, t) && GuardedAt(c, u) && GuardedAt(c, c.pcs[u].o) && SaneAt(c, c.pcs[u].o);
    if t in c.pcs && Pursuing(c.pcs[t]) {
      assert GuardedAt(c, c.pcs[t].o);
    }
  }

  lemma RetireGuardedAt(c: System, u: Token, t: Token)
    requires Guarded(c) && Enabled(c, Retire(u))
    ensures GuardedAt(Do(c, Retire(u)), t)
  {
    assert GuardedAt(c, t) && GuardedAt(c, u) && SaneAt(c, u);
    if t in c.pcs && Pursuing(c.pcs[t]) {
      assert GuardedAt(c, c.pcs[t].o);
    }
  }

  lemma {:induction false} RunSane(c: System, steps: seq<Step>, c': System)
    requires Sane(c) && Run(c, steps, c')
    ensures Sane(c')
    ensures LegacyLock(c'.disk) <==> LegacyLock(c.disk)
    ensures LegacyLock(c.disk) ==> c'.disk[Lock] == c.disk[Lock]
    decreases |steps|
  {
    if steps != [] {
      StepSane(c, steps[0]);
      RunSane(Do(c, steps[0]), steps[1..], c');
    }
  }

  lemma {:induction false} RunGuarded(c: System, steps: seq<Step>, c': System)
    requires Guarded(c) && TimelyRun(c, steps, c')
    ensures Guarded(c')
    decreases |steps|
  {
    if steps != [] {
      StepGuarded(c, steps[0]);
      RunGuarded(Do(c, steps[0]), steps[1..], c');
    }
  }

  lemma InitialGuarded(c: System)
    requires Initial(c)
    ensures Guarded(c)
  {
    forall t
      ensures SaneAt(c, t) && GuardedAt(c, t)
    {
    }
  }

  // ----- the theorems

  predicate InCriticalSection(c: System, t: Token) {
    t in c.pcs && c.pcs[t] == Holding && c.Alive(t)
  }

  /** Mutual exclusion: in every timely interleaving, crashes included, at most one live attempt holds the lock. */
  lemma MutualExclusion(c: System, steps: seq<Step>, c': System, t: Token, u: Token)
    requires Initial(c) && TimelyRun(c, steps, c')
    requires InCriticalSection(c', t) && InCriticalSection(c', u)
    ensures t == u
  {
    InitialGuarded(c);
    RunGuarded(c, steps, c');
    assert GuardedAt(c', t) && GuardedAt(c', u);
  }

  /**
   In every interleaving at all, the lock path is absent or names an owner, unless something without
   owner was there from the start: that stays as it is.
   */
  lemma LockIsWhole(c: System, steps: seq<Step>, c': System)
    requires Initial(c) && Run(c, steps, c')
    ensures if Lock in c.disk then Lock in c'.disk && c'.disk[Lock] == c.disk[Lock]
            else Lock in c'.disk ==> c'.disk[Lock].Owner?
  {
    InitialGuarded(c);
    RunSane(c, steps, c');
  }

  /** A tombstone is permanent: no step of any attempt changes or removes it. */
  lemma {:induction false} TombstoneStays(c: System, steps: seq<Step>, c': System, o: Token)
    requires Sane(c) && Run(c, steps, c') && Recovered(o) in c.disk
    ensures Recovered(o) in c'.disk && c'.disk[Recovered(o)] == c.disk[Recovered(o)]
    decreases |steps|
  {
    if steps != [] {
      assert SaneAt(c, o);
      StepSane(c, steps[0]);
      TombstoneStays(Do(c, steps[0]), steps[1..], c', o);
    }
  }

  /** A published directory is prepared no more, and who has gone has erased what it retired. */
  predicate TidyAt(c: System, t: Token) {
    t in c.pcs && !BeforeRelease(c.pcs[t]) ==> Prepared(t) !in c.disk && (c.pcs[t].Gone? ==> Released(t) !in c.disk)
  }

  lemma {:induction false} RunTidyAt(c: System, steps: seq<Step>, c': System, t: Token)
    requires Sane(c) && TidyAt(c, t) && Run(c, steps, c')
    ensures TidyAt(c', t)
    decreases |steps|
  {
    if steps != [] {
      StepSane(c, steps[0]);
      StepTidyAt(c, steps[0], t);
      RunTidyAt(Do(c, steps[0]), steps[1..], c', t);
    }
  }

  lemma StepTidyAt(c: System, s: Step, t: Token)
    requires Sane(c) && TidyAt(c, t) && Enabled(c, s)
    ensures TidyAt(Do(c, s), t)
  {
    assert SaneAt(c, t) && (!s.Crash? ==> SaneAt(c, s.t));
    if s.Crash? || s.t != t {
      OtherStaysTidy(c, s, t);
    } else {
      OwnStepTidy(c, s);
    }
  }

  lemma OtherStaysTidy(c: System, s: Step, t: Token)
    requires Enabled(c, s) && TidyAt(c, t) && (s.Crash? || s.t != t)
    ensures TidyAt(Do(c, s), t)
  {
  }

  lemma OwnStepTidy(c: System, s: Step)
    requires Enabled(c, s) && !s.Crash? && SaneAt(c, s.t) && TidyAt(c, s.t)
    ensures TidyAt(Do(c, s), s.t)
  {
  }

  /** In every interleaving at all: an attempt that is over, by release or by giving up, leaves no directory behind. */
  lemma NothingIsLeft(c: System, steps: seq<Step>, c': System, t: Token)
    requires Initial(c) && Run(c, steps, c') && c'.At(t, Gone)
    ensures Prepared(t) !in c'.disk && Released(t) !in c'.disk
  {
    InitialGuarded(c);
    RunTidyAt(c, steps, c', t);
  }

  /** A reclaimer, however late, moves the dead owner's lock or nothing. */
  lemma ReclaimHitsItsTarget(c: System, r: Token)
    requires Guarded(c) && Enabled(c, Reclaim(r))
    ensures var o, d := c.pcs[r].o, Do(c, Reclaim(r)).disk;
            && !c.Alive(o)
            && (if Recovered(o) in c.disk then d == c.disk
                else Holds(c.disk, Lock, o) && d == (c.disk - {Lock})[Recovered(o) := Owner(o)])
  {
    assert GuardedAt(c, r) && SaneAt(c, c.pcs[r].o) && GuardedAt(c, c.pcs[r].o);
  }

  /** A release retires its own token, and nobody else's; a second call changes nothing. */
  lemma ReleaseRetiresItsOwn(c: System, t: Token)
    requires Guarded(c) && t in c.pcs
    ensures Enabled(c, Retire(t)) ==>
              Holds(c.disk, Lock, t) && Do(c, Retire(t)).disk == (c.disk - {Lock})[Released(t) := Owner(t)]
    ensures forall seen | Enabled(c, Check(t, seen)) :: seen == OwnedBy(t)
    ensures Enabled(c, Release(t)) && !c.pcs[t].Holding? ==> Do(c, Release(t)) == c
  {
    assert GuardedAt(c, t) && SaneAt(c, t);
  }

  // ----- when the check and the probe of a recovery are one step

  /** Every dead verdict directly follows the same attempt's second look, `last` being the step before. */
  predicate Immediate(last: Step, steps: seq<Step>)
    decreases |steps|
  {
    steps != [] ==>
      && (steps[0].Verdict? && steps[0].dead ==> last.LookAgain? && last.t == steps[0].t)
      && Immediate(steps[0], steps[1..])
  }

  /** What a second look that has just been taken has found. */
  predicate JustLooked(c: System, last: Step) {
    last.LookAgain? && last.t in c.pcs && c.pcs[last.t].Probing? ==> Holds(c.disk, Lock, c.pcs[last.t].o)
  }

  /** Then every verdict is timely. */
  lemma {:induction false} ImmediateIsTimely(c: System, last: Step, steps: seq<Step>, c': System)
    requires Run(c, steps, c') && Immediate(last, steps) && JustLooked(c, last)
    ensures TimelyRun(c, steps, c')
    decreases |steps|
  {
    if steps != [] {
      ImmediateIsTimely(Do(c, steps[0]), steps[0], steps[1..], c');
    }
  }

  /** Mutual exclusion when a recovery checks the owner and probes it in one step; no verdict comes first. */
  lemma MutualExclusionByAtomicRecovery(c: System, steps: seq<Step>, c': System, t: Token, u: Token)
    requires Initial(c) && Run(c, steps, c') && Immediate(Crash(0), steps)
    requires InCriticalSection(c', t) && InCriticalSection(c', u)
    ensures t == u
  {
    ImmediateIsTimely(c, Crash(0), steps, c');
    MutualExclusion(c, steps, c', t, u);
  }

  // ----- when they are not: every untimely verdict can cost the lock, and no timely one can

  /** By steps with timely verdicts only. */
  ghost predicate Reaches(c: System, d: System) {
    exists steps :: TimelyRun(c, steps, d)
  }

  lemma ReachesItself(c: System)
    ensures Reaches(c, c)
  {
    assert TimelyRun(c, [], c);
  }

  lemma {:induction false} RunOn(c: System, steps: seq<Step>, d: System, s: Step)
    requires TimelyRun(c, steps, d) && Enabled(d, s) && Timely(d, s)
    ensures TimelyRun(c, steps + [s], Do(d, s))
    decreases |steps|
  {
    if steps == [] {
      assert TimelyRun(Do(d, s), [], Do(d, s)) && [s][1..] == [];
    } else {
      assert (steps + [s])[1..] == steps[1..] + [s];
      RunOn(Do(c, steps[0]), steps[1..], d, s);
    }
  }

  lemma ReachesOn(c: System, d: System, s: Step)
    requires Reaches(c, d) && Enabled(d, s) && Timely(d, s)
    ensures Reaches(c, Do(d, s))
  {
    var steps :| TimelyRun(c, steps, d);
    RunOn(c, steps, d, s);
  }

  /** A token that no attempt has used yet, for a process that lives. */
  predicate New(c: System, t: Token, p: Pid) {
    t !in c.pcs && t !in c.process && p !in c.dead && Prepared(t) !in c.disk
  }

  /** The system once a new attempt is ready to try. */
  function Tries(c: System, t: Token, p: Pid): System {
    System(c.disk[Prepared(t) := Owner(t)], c.pcs[t := Trying], c.process[t := p], c.dead)
  }

  lemma NewAttemptTries(root: System, c: System, t: Token, p: Pid)
    requires Reaches(root, c) && New(c, t, p)
    ensures Reaches(root, Tries(c, t, p))
  {
    ReachesOn(root, c, Begin(t, p));
    BeginsAndWrites(c, t, p);
    ReachesOn(root, Do(c, Begin(t, p)), Write(t));
  }

  lemma BeginsAndWrites(c: System, t: Token, p: Pid)
    requires New(c, t, p)
    ensures var d := Do(c, Begin(t, p)); Enabled(d, Write(t)) && Do(d, Write(t)) == Tries(c, t, p)
  {
    var d := Do(c, Begin(t, p));
    assert d.disk[Prepared(t) := Owner(t)] == Tries(c, t, p).disk;
    assert d.pcs[t := Trying] == Tries(c, t, p).pcs;
  }

  /** The system once a new attempt has taken the free lock. */
  function Acquired(c: System, t: Token, p: Pid): System {
    System(c.disk[Lock := Owner(t)], c.pcs[t := Holding], c.process[t := p], c.dead)
  }

  lemma FreeLockIsAcquired(root: System, c: System, t: Token, p: Pid)
    requires Reaches(root, c) && New(c, t, p) && Lock !in c.disk
    ensures Reaches(root, Acquired(c, t, p))
  {
    var d := Tries(c, t, p);
    NewAttemptTries(root, c, t, p);
    ReachesOn(root, d, Look(t, Absent));
    PublishedNew(c, t, p);
    ReachesOn(root, d.Go(t, Publishing), Publish(t));
  }

  lemma PublishedNew(c: System, t: Token, p: Pid)
    requires New(c, t, p) && Lock !in c.disk
    ensures var d := Tries(c, t, p).Go(t, Publishing);
            Enabled(d, Publish(t)) && Do(d, Publish(t)) == Acquired(c, t, p)
  {
    var d := Tries(c, t, p).Go(t, Publishing);
    assert (d.disk - {Prepared(t)})[Lock := Owner(t)] == Acquired(c, t, p).disk;
    assert d.pcs[t := Holding] == Acquired(c, t, p).pcs;
  }

  /** The lock of a dead owner, properly recovered by a new attempt. */
  function Freed(c: System, t: Token, p: Pid, n: Token): System {
    System((c.disk - {Lock})[Prepared(t) := Owner(t)][Recovered(n) := Owner(n)], c.pcs[t := Trying], c.process[t := p], c.dead)
  }

  lemma DeadOwnersLockIsFreed(root: System, c: System, t: Token, p: Pid, n: Token)
    requires Reaches(root, c) && New(c, t, p) && Holds(c.disk, Lock, n) && n in c.pcs && !c.Alive(n) && n in c.process
    requires Recovered(n) !in c.disk
    ensures Reaches(root, Freed(c, t, p, n))
  {
    var d := Tries(c, t, p);
    NewAttemptTries(root, c, t, p);
    OwnerIsFoundDead(root, d, t, n);
    RecoveredByNew(c, t, p, n);
    ReachesOn(root, d.Go(t, Reclaiming(n)), Reclaim(t));
  }

  lemma OwnerIsFoundDead(root: System, d: System, t: Token, n: Token)
    requires Reaches(root, d) && d.At(t, Trying) && d.Alive(t) && Holds(d.disk, Lock, n) && !d.Alive(n)
    ensures Reaches(root, d.Go(t, Reclaiming(n)))
  {
    hide TimelyRun;
    ReachesOn(root, d, Look(t, OwnedBy(n)));
    ReachesOn(root, d.Go(t, Recovering(n)), LookAgain(t, OwnedBy(n)));
    GoTwice(d, t, Recovering(n), Probing(n));
    ReachesOn(root, d.Go(t, Probing(n)), Verdict(t, true));
    GoTwice(d, t, Probing(n), Reclaiming(n));
  }

  lemma GoTwice(c: System, t: Token, x: Pc, y: Pc)
    ensures c.Go(t, x).Go(t, y) == c.Go(t, y)
  {
    assert c.pcs[t := x][t := y] == c.pcs[t := y];
  }

  lemma RecoveredByNew(c: System, t: Token, p: Pid, n: Token)
    requires New(c, t, p) && Holds(c.disk, Lock, n) && Recovered(n) !in c.disk
    ensures var d := Tries(c, t, p).Go(t, Reclaiming(n));
            Enabled(d, Reclaim(t)) && Do(d, Reclaim(t)) == Freed(c, t, p, n)
  {
    var d := Tries(c, t, p).Go(t, Reclaiming(n));
    assert (d.disk - {Lock})[Recovered(n) := Owner(n)] == Freed(c, t, p, n).disk;
    assert d.pcs[t := Trying] == Freed(c, t, p, n).pcs;
  }

  ghost predicate Broken(c: System) {
    exists t, u :: t != u && InCriticalSection(c, t) && InCriticalSection(c, u)
  }

  /** Two live holders can come about without any further untimely verdict. */
  ghost predicate CanBreak(c: System) {
    exists d :: Reaches(c, d) && Broken(d)
  }

  /** A reclaimer that is about to move whatever is at the lock path. */
  predicate Loose(c: System, r: Token) {
    r in c.pcs && c.pcs[r].Reclaiming? && c.Alive(r) && Recovered(c.pcs[r].o) !in c.disk
  }

  function Stolen(c: System, r: Token): Disk
    requires Loose(c, r) && Lock in c.disk
  {
    (c.disk - {Lock})[Recovered(c.pcs[r].o) := c.disk[Lock]]
  }

  /** It takes the lock from a live holder, and another attempt gets it too. */
  lemma HolderIsRobbed(root: System, c: System, r: Token, n: Token, b: Token, p: Pid)
    requires Reaches(root, c) && Loose(c, r) && New(c, b, p)
    requires Holds(c.disk, Lock, n) && InCriticalSection(c, n)
    ensures CanBreak(root)
  {
    var d := Do(c, Reclaim(r));
    ReachesOn(root, c, Reclaim(r));
    assert d == System(Stolen(c, r), c.pcs[r := Trying], c.process, c.dead);
    FreeLockIsAcquired(root, d, b, p);
    var e := Acquired(d, b, p);
    assert InCriticalSection(e, n) && InCriticalSection(e, b) && n != b;
  }

  lemma FreePathBreaks(root: System, c: System, r: Token, a: Token, b: Token, p: Pid)
    requires Reaches(root, c) && Loose(c, r) && Lock !in c.disk && a != b && New(c, a, p) && New(c, b, p)
    ensures CanBreak(root)
  {
    FreeLockIsAcquired(root, c, a, p);
    HolderIsRobbed(root, Acquired(c, a, p), r, a, b, p);
  }

  lemma RetiringBreaks(root: System, c: System, r: Token, n: Token, a: Token, b: Token, p: Pid)
    requires Reaches(root, c) && Loose(c, r) && Lock in c.disk && a != b && New(c, a, p) && New(c, b, p)
    requires c.At(n, Retiring) && c.Alive(n) && Released(n) !in c.disk
    ensures CanBreak(root)
  {
    ReachesOn(root, c, Retire(n));
    FreePathBreaks(root, Do(c, Retire(n)), r, a, b, p);
  }

  /** From any state of the protocol, one untimely verdict opens the way to two live holders. */
  lemma UntimelyVerdictBreaks(c: System, r: Token, a: Token, b: Token, e: Token, p: Pid)
    requires Guarded(c) && Enabled(c, Verdict(r, true)) && !Timely(c, Verdict(r, true))
    requires New(c, a, p) && New(c, b, p) && New(c, e, p) && a != b && a != e && b != e
    ensures CanBreak(Do(c, Verdict(r, true)))
  {
    var o, d := c.pcs[r].o, Do(c, Verdict(r, true));
    assert GuardedAt(c, r) && SaneAt(c, r);
    ReachesItself(d);
    assert Loose(d, r);
    if Lock !in d.disk {
      FreePathBreaks(d, d, r, a, b, p);
    } else {
      var n := d.disk[Lock].token;
      assert GuardedAt(c, n) && SaneAt(c, n);
      if !c.Alive(n) {
        DeadOwnersLockIsFreed(d, d, e, p, n);
        FreePathBreaks(d, Freed(d, e, p, n), r, a, b, p);
      } else if c.pcs[n].Holding? {
        HolderIsRobbed(d, d, r, n, a, p);
      } else if c.pcs[n].Checking? {
        ReachesOn(d, d, Check(n, OwnedBy(n)));
        RetiringBreaks(d, Do(d, Check(n, OwnedBy(n))), r, n, a, b, p);
      } else {
        RetiringBreaks(d, d, r, n, a, b, p);
      }
    }
  }

  /** A token that is larger than all used. */
  lemma Unused(used: set<Token>) returns (t: Token)
    ensures forall u | u in used :: u < t
  {
    if used == {} {
      return 0;
    }
    var u :| u in used;
    var t' := Unused(used - {u});
    t := if t' <= u then u + 1 else t';
    assert forall v | v in used :: v == u || v in used - {u};
  }

  lemma NoBreakFromGuarded(c: System)
    requires Guarded(c)
    ensures !CanBreak(c)
  {
    forall d | Reaches(c, d)
      ensures !Broken(d)
    {
      var steps :| TimelyRun(c, steps, d);
      RunGuarded(c, steps, d);
      forall t, u | InCriticalSection(d, t) && InCriticalSection(d, u)
        ensures t == u
      {
        assert GuardedAt(d, t) && GuardedAt(d, u);
      }
    }
  }

  /**
   Timeliness is the exact condition: in any state of the protocol, a dead verdict lets two live holders
   come about, all later verdicts being timely, if and only if it is not timely itself.
   */
  lemma VerdictBreaksUnlessTimely(c: System, r: Token)
    requires Guarded(c) && Enabled(c, Verdict(r, true))
    ensures CanBreak(Do(c, Verdict(r, true))) <==> !Timely(c, Verdict(r, true))
  {
    if Timely(c, Verdict(r, true)) {
      StepGuarded(c, Verdict(r, true));
      NoBreakFromGuarded(Do(c, Verdict(r, true)));
    } else {
      var t := Unused(c.pcs.Keys);
      forall u | u >= t
        ensures New(c, u, c.process[r])
      {
        assert SaneAt(c, u);
      }
      UntimelyVerdictBreaks(c, r, t, t + 1, t + 2, c.process[r]);
    }
  }

  // ----- a run of the code as it is

  lemma {:induction false} TimelyRunIsRun(c: System, steps: seq<Step>, d: System)
    requires TimelyRun(c, steps, d)
    ensures Run(c, steps, d)
    decreases |steps|
  {
    if steps != [] {
      TimelyRunIsRun(Do(c, steps[0]), steps[1..], d);
    }
  }

  lemma {:induction false} RunConcat(c: System, xs: seq<Step>, d: System, ys: seq<Step>, e: System)
    requires Run(c, xs, d) && Run(d, ys, e)
    ensures Run(c, xs + ys, e)
    decreases |xs|
  {
    if xs == [] {
      assert xs + ys == ys;
    } else {
      assert (xs + ys)[1..] == xs[1..] + ys;
      RunConcat(Do(c, xs[0]), xs[1..], d, ys, e);
    }
  }

  /** Two attempts of two processes. */
  function Two(disk: Disk, x: Pc, y: Pc, dead: set<Pid>): System {
    System(disk, map[0 := x, 1 := y], map[0 := 0, 1 := 1], dead)
  }

  lemma TwoGo(disk: Disk, x: Pc, y: Pc, pc: Pc)
    ensures Two(disk, x, y, {}).Go(0, pc) == Two(disk, pc, y, {}) && Two(disk, x, y, {}).Go(1, pc) == Two(disk, x, pc, {})
  {
    assert map[0 := x, 1 := y][0 := pc] == map[0 := pc, 1 := y];
    assert map[0 := x, 1 := y][1 := pc] == map[0 := x, 1 := pc];
  }

  /** The owner 0 held the lock when attempt 1 looked twice; it released and exited before the probe. */
  function LateProbe(): System {
    Two(map[Prepared(1) := Owner(1)], Gone, Probing(0), {0})
  }

  lemma LateProbeIsReached(c: System)
    requires c == System(map[], map[], map[], {})
    ensures Reaches(c, LateProbe())
  {
    var disk := map[Lock := Owner(0), Prepared(1) := Owner(1)];
    ReachesItself(c);
    FreeLockIsAcquired(c, c, 0, 0);
    NewAttemptTries(c, Acquired(c, 0, 0), 1, 1);
    assert Tries(Acquired(c, 0, 0), 1, 1) == Two(disk, Holding, Trying, {});
    LooksTwice(c, disk);
    OwnerReleases(c, disk);
    OwnerLeaves(c);
  }

  lemma LooksTwice(root: System, disk: Disk)
    requires Reaches(root, Two(disk, Holding, Trying, {})) && Holds(disk, Lock, 0)
    ensures Reaches(root, Two(disk, Holding, Probing(0), {}))
  {
    TwoGo(disk, Holding, Trying, Recovering(0));
    ReachesOn(root, Two(disk, Holding, Trying, {}), Look(1, OwnedBy(0)));
    TwoGo(disk, Holding, Recovering(0), Probing(0));
    ReachesOn(root, Two(disk, Holding, Recovering(0), {}), LookAgain(1, OwnedBy(0)));
  }

  lemma OwnerReleases(root: System, disk: Disk)
    requires Reaches(root, Two(disk, Holding, Probing(0), {})) && Holds(disk, Lock, 0)
    ensures Reaches(root, Two(disk, Retiring, Probing(0), {}))
  {
    TwoGo(disk, Holding, Probing(0), Checking);
    ReachesOn(root, Two(disk, Holding, Probing(0), {}), Release(0));
    TwoGo(disk, Checking, Probing(0), Retiring);
    ReachesOn(root, Two(disk, Checking, Probing(0), {}), Check(0, OwnedBy(0)));
  }

  lemma OwnerLeaves(root: System)
    requires Reaches(root, Two(map[Lock := Owner(0), Prepared(1) := Owner(1)], Retiring, Probing(0), {}))
    ensures Reaches(root, LateProbe())
  {
    var d4 := Two(map[Lock := Owner(0), Prepared(1) := Owner(1)], Retiring, Probing(0), {});
    var d5 := Two(map[Released(0) := Owner(0), Prepared(1) := Owner(1)], Erasing, Probing(0), {});
    var d6 := Two(map[Released(0) := Empty, Prepared(1) := Owner(1)], ErasingDirectory, Probing(0), {});
    var d7 := Two(map[Prepared(1) := Owner(1)], Gone, Probing(0), {});
    RetireMoves(d4, d5);
    ReachesOn(root, d4, Retire(0));
    EraseEmpties(d5, d6);
    ReachesOn(root, d5, EraseFile(0));
    EraseRemoves(d6, d7);
    ReachesOn(root, d6, EraseDirectory(0));
    assert Do(d7, Crash(0)) == LateProbe();
    ReachesOn(root, d7, Crash(0));
  }

  lemma RetireMoves(d: System, d': System)
    requires d == Two(map[Lock := Owner(0), Prepared(1) := Owner(1)], Retiring, Probing(0), {})
    requires d' == Two(map[Released(0) := Owner(0), Prepared(1) := Owner(1)], Erasing, Probing(0), {})
    ensures Enabled(d, Retire(0)) && Do(d, Retire(0)) == d'
  {
    TwoGo(d'.disk, Retiring, Probing(0), Erasing);
    assert (d.disk - {Lock})[Released(0) := Owner(0)] == d'.disk;
  }

  lemma EraseEmpties(d: System, d': System)
    requires d == Two(map[Released(0) := Owner(0), Prepared(1) := Owner(1)], Erasing, Probing(0), {})
    requires d' == Two(map[Released(0) := Empty, Prepared(1) := Owner(1)], ErasingDirectory, Probing(0), {})
    ensures Enabled(d, EraseFile(0)) && Do(d, EraseFile(0)) == d'
  {
    TwoGo(d'.disk, Erasing, Probing(0), ErasingDirectory);
    assert d.disk[Released(0) := Empty] == d'.disk;
  }

  lemma EraseRemoves(d: System, d': System)
    requires d == Two(map[Released(0) := Empty, Prepared(1) := Owner(1)], ErasingDirectory, Probing(0), {})
    requires d' == Two(map[Prepared(1) := Owner(1)], Gone, Probing(0), {})
    ensures Enabled(d, EraseDirectory(0)) && Do(d, EraseDirectory(0)) == d'
  {
    TwoGo(d'.disk, ErasingDirectory, Probing(0), Gone);
    assert d.disk - {Released(0)} == d'.disk;
  }

  lemma LateProbeIsGuarded()
    ensures Guarded(LateProbe())
  {
    forall t
      ensures SaneAt(LateProbe(), t) && GuardedAt(LateProbe(), t)
    {
    }
  }

  lemma OneUntimelyStep(c: System, late: System, s: Step)
    requires Reaches(c, late) && Enabled(late, s) && CanBreak(Do(late, s))
    ensures exists steps, d :: Run(c, steps, d) && Broken(d)
  {
    hide Broken, Do;
    var xs :| TimelyRun(c, xs, late);
    var e :| Reaches(Do(late, s), e) && Broken(e);
    var ys :| TimelyRun(Do(late, s), ys, e);
    TimelyRunIsRun(c, xs, late);
    TimelyRunIsRun(Do(late, s), ys, e);
    assert Run(late, [s] + ys, e) by { assert ([s] + ys)[1..] == ys; }
    RunConcat(c, xs, late, [s] + ys, e);
  }

  /**
   With check and probe as separate steps, as the code has them, two processes can hold the lock: one
   untimely verdict suffices.
   */
  lemma SeparateRecoveryCanFail(c: System)
    requires c == System(map[], map[], map[], {})
    ensures exists steps, d :: Run(c, steps, d) && Broken(d)
  {
    LateProbeIsReached(c);
    LateProbeIsGuarded();
    VerdictBreaksUnlessTimely(LateProbe(), 1);
    OneUntimelyStep(c, LateProbe(), Verdict(1, true));
  }
}

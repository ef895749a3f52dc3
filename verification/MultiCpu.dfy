/**
  Many CPUs, one kernel lock: kern/spinlock.c, trap.c, sched.c and env.c as a state machine whose steps
  are single reads and writes of the lock word and single kernel decisions under the lock.
*/
module MultiCpu {
  import opened EnvIds

  const NONE := -1

  /** Why a CPU asks for the lock: it trapped from user mode, was woken from halt, or is booting. */
  datatype From = FromUser | FromHalt | FromBoot | Twice

  /** Where a CPU goes when it has released the lock. */
  datatype To = ToUser | ToHalt

  datatype Pc =
    | User                   // running its environment
    | Halted                 // in the hlt loop with interrupts enabled
    | Boot                   // before its first lock_kernel
    | SeeLocked(from: From)  // spin_lock: holding() reads lk->locked
    | SeeCpu(from: From)     // holding() reads lk->cpu
    | Spin(from: From)       // the xchg loop
    | Own(from: From)        // the xchg succeeded, lk->cpu not written yet
    | Reap                   // trapped from user mode, lock held, before the zombie test
    | Kernel                 // trap_dispatch for the current environment
    | Idle                   // lock held without a current environment
    | Done                   // trap_dispatch has returned
    | Sched                  // sched_yield
    | UnLocked(to: To)       // spin_unlock: holding() reads lk->locked
    | UnCpu(to: To)          // holding() reads lk->cpu
    | Clear(to: To)          // lk->cpu = 0
    | Release(to: To)        // xchg(&lk->locked, 0)
    | Monitor                // nothing left to run; the lock is kept
    | Panicked

  datatype Cpu = Cpu(pc: Pc, env: int, halted: bool)
  datatype EnvState = EnvState(status: Status, recving: bool)
  datatype State = State(cpus: seq<Cpu>, envs: seq<EnvState>, locked: bool, owner: int)

  function Go(s: State, c: nat, pc: Pc): State
    requires c < |s.cpus|
  {
    s.(cpus := s.cpus[c := s.cpus[c].(pc := pc)])
  }

  function SetEnv(s: State, c: nat, e: int): State
    requires c < |s.cpus|
  {
    s.(cpus := s.cpus[c := s.cpus[c].(env := e)])
  }

  function SetStatus(s: State, e: nat, st: Status): State
    requires e < |s.envs|
  {
    s.(envs := s.envs[e := s.envs[e].(status := st)])
  }

  predicate HasEnv(s: State, c: nat) { c < |s.cpus| && 0 <= s.cpus[c].env < |s.envs| }

  function CurStatus(s: State, c: nat): Status
    requires HasEnv(s, c)
  {
    s.envs[s.cpus[c].env].status
  }

  // ---------------------------------------------------------------- steps of one CPU

  /** trap(): an interrupt or exception.  A CPU that was halted takes the lock for that; a trap from user
      mode takes it again for that. */
  function Trap(s: State, c: nat): State
    requires c < |s.cpus|
  {
    var woken := s.(cpus := s.cpus[c := s.cpus[c].(halted := false)]);
    if s.cpus[c].pc == User then Go(woken, c, SeeLocked(if s.cpus[c].halted then Twice else FromUser))
    else if s.cpus[c].halted then Go(woken, c, SeeLocked(FromHalt))
    else Go(woken, c, Kernel)
  }

  /** One step of spin_lock. */
  function LockStep(s: State, c: nat): State
    requires c < |s.cpus|
  {
    match s.cpus[c].pc
    case SeeLocked(from) => Go(s, c, if s.locked then SeeCpu(from) else Spin(from))
    case SeeCpu(from) => Go(s, c, if s.owner == c then Panicked else Spin(from))
    case Spin(from) => if s.locked then s else Go(s, c, Own(from)).(locked := true)
    case Own(from) =>
      Go(s, c, match from
               case FromUser => Reap
               case FromHalt => Idle
               case FromBoot => Idle
               case Twice => SeeLocked(FromUser)).(owner := c)
    case _ => s
  }

  /** One step of spin_unlock. */
  function UnlockStep(s: State, c: nat): State
    requires c < |s.cpus|
  {
    match s.cpus[c].pc
    case UnLocked(to) => Go(s, c, if s.locked then UnCpu(to) else Panicked)
    case UnCpu(to) => Go(s, c, if s.owner == c then Clear(to) else Panicked)
    case Clear(to) => Go(s, c, Release(to)).(owner := NONE)
    case Release(to) => Go(s, c, if to == ToUser then User else Halted).(locked := false)
    case _ => s
  }

  /** env_run up to unlock_kernel. */
  function EnvRun(s: State, c: nat, e: nat): State
    requires c < |s.cpus| && e < |s.envs|
  {
    var s1 := if HasEnv(s, c) && CurStatus(s, c) == RUNNING then SetStatus(s, s.cpus[c].env, RUNNABLE) else s;
    Go(SetEnv(SetStatus(s1, e, RUNNING), c, e), c, UnLocked(ToUser))
  }

  /** The zombie test of trap(). */
  function ReapStep(s: State, c: nat): State
    requires c < |s.cpus|
  {
    if !HasEnv(s, c) then Go(s, c, Panicked)
    else if CurStatus(s, c) == DYING then Go(SetEnv(SetStatus(s, s.cpus[c].env, FREE), c, NONE), c, Sched)
    else Go(s, c, Kernel)
  }

  /** The end of trap(). */
  function DoneStep(s: State, c: nat): State
    requires c < |s.cpus|
  {
    if HasEnv(s, c) && CurStatus(s, c) == RUNNING then EnvRun(s, c, s.cpus[c].env) else Go(s, c, Sched)
  }

  predicate AnyRunnable(s: State) { exists e :: 0 <= e < |s.envs| && s.envs[e].status == RUNNABLE }

  predicate AnyLive(s: State) {
    exists e :: 0 <= e < |s.envs|
                && (s.envs[e].status == RUNNABLE || s.envs[e].status == RUNNING || s.envs[e].status == DYING)
  }

  /** sched_yield when no environment is RUNNABLE: keep the current one, halt, or give up in the monitor. */
  function SchedRest(s: State, c: nat): State
    requires c < |s.cpus|
  {
    if HasEnv(s, c) && CurStatus(s, c) == RUNNING then EnvRun(s, c, s.cpus[c].env)
    else if AnyLive(s) then Go(s.(cpus := s.cpus[c := s.cpus[c].(env := NONE, halted := true)]), c, UnLocked(ToHalt))
    else Go(s, c, Monitor)
  }

  /** env_destroy.  A second destroy of a DYING environment frees it at once. */
  function Destroy(s: State, c: nat, e: nat): State
    requires c < |s.cpus| && e < |s.envs|
  {
    if s.envs[e].status == RUNNING && s.cpus[c].env != e then Go(SetStatus(s, e, DYING), c, Done)
    else if s.cpus[c].env == e then Go(SetEnv(SetStatus(s, e, FREE), c, NONE), c, Sched)
    else Go(SetStatus(s, e, FREE), c, Done)
  }

  /** A receiver that is woken by ipc_try_send. */
  function Wake(s: State, c: nat, e: nat): State
    requires c < |s.cpus| && e < |s.envs|
  {
    Go(s.(envs := s.envs[e := EnvState(RUNNABLE, false)]), c, Done)
  }

  /** ipc_recv blocks the caller and yields. */
  function Block(s: State, c: nat): State
    requires HasEnv(s, c)
  {
    Go(s.(envs := s.envs[s.cpus[c].env := EnvState(NOT_RUNNABLE, true)]), c, Sched)
  }

  /** exofork, or env_create during boot, fills a free slot. */
  function Create(s: State, c: nat, e: nat, st: Status): State
    requires c < |s.cpus| && e < |s.envs|
  {
    s.(envs := s.envs[e := EnvState(st, false)])
  }

  datatype Action =
    | TrapA | LockA | UnlockA | ReapA | DoneA | RunA(e: nat) | RestA
    | NothingA | YieldA | CreateA(e: nat) | ExoforkA(e: nat) | StatusA(e: nat, st: Status) | DestroyA(e: nat)
    | WakeA(e: nat) | BlockA

  /** What sys_env_set_status may do to e: e is the caller or on no CPU, and where there is a second CPU
      a blocked receiver is not made RUNNABLE. */
  ghost predicate StatusGuard(s: State, c: nat, e: nat, st: Status)
    requires c < |s.cpus| && e < |s.envs|
  {
    && (s.cpus[c].env == e || forall d :: 0 <= d < |s.cpus| ==> s.cpus[d].env != e)
    && (|s.cpus| >= 2 && s.envs[e].recving ==> st == NOT_RUNNABLE)
  }

  /** The step a takes on CPU c, if c can take it. */
  ghost predicate CanDo(s: State, c: nat, a: Action) {
    && c < |s.cpus|
    && match a
       case TrapA => s.cpus[c].pc == User || s.cpus[c].pc == Halted
       case LockA => s.cpus[c].pc == Boot || s.cpus[c].pc.SeeLocked? || s.cpus[c].pc.SeeCpu? || s.cpus[c].pc.Spin?
           || s.cpus[c].pc.Own?
       case UnlockA => s.cpus[c].pc.UnLocked? || s.cpus[c].pc.UnCpu? || s.cpus[c].pc.Clear? || s.cpus[c].pc.Release?
       case ReapA => s.cpus[c].pc == Reap
       case DoneA => s.cpus[c].pc == Done
       case RunA(e) => s.cpus[c].pc == Sched && e < |s.envs| && s.envs[e].status == RUNNABLE
       case RestA => s.cpus[c].pc == Sched && !AnyRunnable(s)
       case NothingA => s.cpus[c].pc == Kernel
       case YieldA => s.cpus[c].pc == Kernel || s.cpus[c].pc == Idle
       case CreateA(e) => s.cpus[c].pc == Idle && e < |s.envs| && s.envs[e].status == FREE
       case ExoforkA(e) => s.cpus[c].pc == Kernel && e < |s.envs| && s.envs[e].status == FREE
       case StatusA(e, st) => s.cpus[c].pc == Kernel && e < |s.envs| && s.envs[e].status != FREE
           && (st == RUNNABLE || st == NOT_RUNNABLE)
       case DestroyA(e) => s.cpus[c].pc == Kernel && e < |s.envs| && s.envs[e].status != FREE
       case WakeA(e) => s.cpus[c].pc == Kernel && e < |s.envs| && s.envs[e].status != FREE && s.envs[e].recving
       case BlockA => s.cpus[c].pc == Kernel && HasEnv(s, c)
  }

  function Do(s: State, c: nat, a: Action): State
    requires c < |s.cpus|
  {
    match a
    case TrapA => Trap(s, c)
    case LockA => if s.cpus[c].pc == Boot then Go(s, c, SeeLocked(FromBoot)) else LockStep(s, c)
    case UnlockA => UnlockStep(s, c)
    case ReapA => ReapStep(s, c)
    case DoneA => DoneStep(s, c)
    case RunA(e) => if e < |s.envs| then EnvRun(s, c, e) else s
    case RestA => SchedRest(s, c)
    case NothingA => Go(s, c, Done)
    case YieldA => Go(s, c, Sched)
    case CreateA(e) => if e < |s.envs| then Create(s, c, e, RUNNABLE) else s
    case ExoforkA(e) => if e < |s.envs| then Go(Create(s, c, e, NOT_RUNNABLE), c, Done) else s
    case StatusA(e, st) => if e < |s.envs| then Go(SetStatus(s, e, st), c, Done) else s
    case DestroyA(e) => if e < |s.envs| then Destroy(s, c, e) else s
    case WakeA(e) => if e < |s.envs| then Wake(s, c, e) else s
    case BlockA => if HasEnv(s, c) then Block(s, c) else s
  }

  /** The two calls that need care are used with it. */
  ghost predicate Guarded(s: State, c: nat, a: Action) {
    match a
    case StatusA(e, st) => c < |s.cpus| && e < |s.envs| && StatusGuard(s, c, e, st)
    case DestroyA(e) => e < |s.envs| && s.envs[e].status != DYING
    case _ => true
  }

  // ---------------------------------------------------------------- the invariant

  predicate FromOf(pc: Pc, from: From) {
    pc == SeeLocked(from) || pc == SeeCpu(from) || pc == Spin(from) || pc == Own(from)
  }
  predicate ToOf(pc: Pc, to: To) { pc == UnLocked(to) || pc == UnCpu(to) || pc == Clear(to) || pc == Release(to) }

  /** Between the xchg that takes the lock and the one that gives it back. */
  predicate Critical(pc: Pc) {
    pc.Own? || pc == Reap || pc == Kernel || pc == Idle || pc == Done || pc == Sched || pc == Monitor ||
    pc.UnLocked? || pc.UnCpu? || pc.Clear? || pc.Release?
  }

  predicate Named(pc: Pc) { Critical(pc) && !pc.Own? && !pc.Release? }

  ghost predicate LockInv(s: State) {
    && (forall c, d :: 0 <= c < |s.cpus| && 0 <= d < |s.cpus| && Critical(s.cpus[c].pc) && Critical(s.cpus[d].pc) ==>
          c == d)
    && (s.locked <==> exists c :: 0 <= c < |s.cpus| && Critical(s.cpus[c].pc))
    && (forall c :: 0 <= c < |s.cpus| ==> (s.owner == c <==> Named(s.cpus[c].pc)))
    && -1 <= s.owner < |s.cpus|
  }

  /** What the current environment of a CPU is, by where the CPU is. */
  predicate Seated(s: State, c: nat)
    requires c < |s.cpus|
  {
    var pc := s.cpus[c].pc;
    if pc == User || FromOf(pc, FromUser) || pc == Reap then HasEnv(s, c)
        && (CurStatus(s, c) == RUNNING || CurStatus(s, c) == DYING)
    else if pc == Kernel || ToOf(pc, ToUser) then HasEnv(s, c) && CurStatus(s, c) == RUNNING
    else if pc == Done || pc == Sched || pc == Monitor then s.cpus[c].env == NONE
        || (HasEnv(s, c) && CurStatus(s, c) != FREE && CurStatus(s, c) != DYING)
    else s.cpus[c].env == NONE
  }

  ghost predicate EnvInv(s: State) {
    && (forall c :: 0 <= c < |s.cpus| ==> Seated(s, c) && s.cpus[c].pc != Panicked && !FromOf(s.cpus[c].pc, Twice))
    && (forall c :: 0 <= c < |s.cpus| ==> (s.cpus[c].halted <==> s.cpus[c].pc == Halted || ToOf(s.cpus[c].pc, ToHalt)))
    && (forall c, d :: 0 <= c < |s.cpus| && 0 <= d < |s.cpus| && s.cpus[c].env == s.cpus[d].env != NONE ==> c == d)
    && (forall e :: 0 <= e < |s.envs| && (s.envs[e].status == RUNNING || s.envs[e].status == DYING) ==> OnCpu(s, e))
    && ReceiversBlocked(s)
  }

  /** With several CPUs, an environment that waits for a message is not runnable. */
  ghost predicate ReceiversBlocked(s: State) {
    |s.cpus| >= 2 ==>
      forall e :: 0 <= e < |s.envs| && s.envs[e].recving && s.envs[e].status != FREE ==>
          s.envs[e].status == NOT_RUNNABLE
  }

  predicate OnCpu(s: State, e: int) { exists c :: 0 <= c < |s.cpus| && s.cpus[c].env == e }

  ghost predicate Inv(s: State) { LockInv(s) && EnvInv(s) }

  // ---------------------------------------------------------------- every step keeps it

  /** Steps of one CPU that leave the lock and its criticality alone. */
  lemma SameLock(s: State, s': State, c: nat)
    requires LockInv(s) && c < |s.cpus| == |s'.cpus| && s'.locked == s.locked && s'.owner == s.owner
    requires forall d :: 0 <= d < |s.cpus| && d != c ==> s'.cpus[d].pc == s.cpus[d].pc
    requires Critical(s'.cpus[c].pc) == Critical(s.cpus[c].pc) && Named(s'.cpus[c].pc) == Named(s.cpus[c].pc)
    ensures LockInv(s')
  {
    assert forall d :: 0 <= d < |s.cpus| ==> Critical(s'.cpus[d].pc) == Critical(s.cpus[d].pc);
  }

  /** What the invariant says about one CPU. */
  lemma AtCpu(s: State, c: nat)
    requires Inv(s) && c < |s.cpus|
    ensures Seated(s, c) && s.cpus[c].pc != Panicked && !FromOf(s.cpus[c].pc, Twice)
    ensures s.cpus[c].halted <==> s.cpus[c].pc == Halted || ToOf(s.cpus[c].pc, ToHalt)
    ensures s.owner == c <==> Named(s.cpus[c].pc)
    ensures Critical(s.cpus[c].pc) ==> s.locked
  {
  }

  lemma InKernel(s: State, c: nat)
    requires Inv(s) && c < |s.cpus| && s.cpus[c].pc == Kernel
    ensures Critical(s.cpus[c].pc) && s.locked && s.owner == c && HasEnv(s, c) && CurStatus(s, c) == RUNNING
    ensures !s.cpus[c].halted
  {
    AtCpu(s, c);
  }

  /** The xchg that takes the lock, and the store that records the owner. */
  lemma AcquireKeeps(s: State, s': State, c: nat)
    requires LockInv(s) && c < |s.cpus| == |s'.cpus| && s'.locked
    requires forall d :: 0 <= d < |s.cpus| && d != c ==> s'.cpus[d].pc == s.cpus[d].pc
    requires Critical(s'.cpus[c].pc) && (s.locked ==> Critical(s.cpus[c].pc)) && !Named(s.cpus[c].pc)
    requires s'.owner == if Named(s'.cpus[c].pc) then c else s.owner
    ensures LockInv(s')
  {
    assert Critical(s'.cpus[c].pc);
    assert forall d :: 0 <= d < |s.cpus| && d != c ==> !Critical(s.cpus[d].pc);
  }

  /** lk->cpu = 0, and the xchg that gives the lock back. */
  lemma ReleaseKeeps(s: State, s': State, c: nat)
    requires LockInv(s) && c < |s.cpus| == |s'.cpus|
    requires forall d :: 0 <= d < |s.cpus| && d != c ==> s'.cpus[d].pc == s.cpus[d].pc
    requires Critical(s.cpus[c].pc) && (s'.locked <==> Critical(s'.cpus[c].pc)) && !Named(s'.cpus[c].pc)
    requires s'.owner == if Named(s.cpus[c].pc) then NONE else s.owner
    ensures LockInv(s')
  {
    assert forall d :: 0 <= d < |s.cpus| && d != c ==> !Critical(s.cpus[d].pc);
    if s'.locked {
      assert Critical(s'.cpus[c].pc);
    }
  }

  lemma LockKeeps(s: State, c: nat)
    requires Inv(s) && CanDo(s, c, LockA)
    ensures Inv(Do(s, c, LockA))
  {
    hide LockInv, EnvInv, Do, CanDo;
    LockKeepsLock(s, c);
    LockKeepsEnvs(s, c);
  }

  lemma LockKeepsLock(s: State, c: nat)
    requires Inv(s) && CanDo(s, c, LockA)
    ensures LockInv(Do(s, c, LockA))
  {
    hide LockInv, EnvInv;
    var s' := Do(s, c, LockA);
    AtCpu(s, c);
    if (s.cpus[c].pc.Spin? && !s.locked) || s.cpus[c].pc.Own? {
      AcquireKeeps(s, s', c);
    } else {
      SameLock(s, s', c);
    }
  }

  lemma LockKeepsEnvs(s: State, c: nat)
    requires Inv(s) && CanDo(s, c, LockA)
    ensures EnvInv(Do(s, c, LockA))
  {
    hide LockInv, EnvInv;
    AtCpu(s, c);
    SameEnvs(s, Do(s, c, LockA), c);
  }

  /** Steps that change no environment, no cpu_env, and keep CPU c seated. */
  lemma SameEnvs(s: State, s': State, c: nat)
    requires EnvInv(s) && c < |s.cpus| == |s'.cpus| && s'.envs == s.envs
    requires forall d :: 0 <= d < |s.cpus| ==> s'.cpus[d].env == s.cpus[d].env
    requires forall d :: 0 <= d < |s.cpus| && d != c ==> s'.cpus[d] == s.cpus[d]
    requires Seated(s', c) && s'.cpus[c].pc != Panicked && !FromOf(s'.cpus[c].pc, Twice)
    requires s'.cpus[c].halted <==> s'.cpus[c].pc == Halted || ToOf(s'.cpus[c].pc, ToHalt)
    ensures EnvInv(s')
  {
    forall d | 0 <= d < |s.cpus| ensures Seated(s', d) {
      assert Seated(s, d);
    }
    forall e | 0 <= e < |s.envs| ensures OnCpu(s', e) == OnCpu(s, e) {}
  }

  lemma UnlockKeeps(s: State, c: nat)
    requires Inv(s) && CanDo(s, c, UnlockA)
    ensures Inv(Do(s, c, UnlockA))
  {
    hide LockInv, EnvInv, Do, CanDo;
    UnlockKeepsLock(s, c);
    UnlockKeepsEnvs(s, c);
  }

  lemma UnlockKeepsLock(s: State, c: nat)
    requires Inv(s) && CanDo(s, c, UnlockA)
    ensures LockInv(Do(s, c, UnlockA))
  {
    hide LockInv, EnvInv;
    var s' := Do(s, c, UnlockA);
    AtCpu(s, c);
    if s.cpus[c].pc.Clear? || s.cpus[c].pc.Release? {
      ReleaseKeeps(s, s', c);
    } else {
      SameLock(s, s', c);
    }
  }

  lemma UnlockKeepsEnvs(s: State, c: nat)
    requires Inv(s) && CanDo(s, c, UnlockA)
    ensures EnvInv(Do(s, c, UnlockA))
  {
    hide LockInv, EnvInv;
    AtCpu(s, c);
    SameEnvs(s, Do(s, c, UnlockA), c);
  }

  lemma TrapKeeps(s: State, c: nat)
    requires Inv(s) && CanDo(s, c, TrapA)
    ensures Inv(Do(s, c, TrapA))
  {
    hide LockInv, EnvInv;
    var s' := Do(s, c, TrapA);
    AtCpu(s, c);
    SameLock(s, s', c);
    SameEnvs(s, s', c);
  }

  /** While c is in the kernel, the other CPUs' environments are RUNNING or DYING, and not c's. */
  lemma Others(s: State, c: nat, d: nat)
    requires Inv(s) && c < |s.cpus| && d < |s.cpus| && d != c && Critical(s.cpus[c].pc)
    ensures s.cpus[d].env == NONE || (HasEnv(s, d) && (CurStatus(s, d) == RUNNING || CurStatus(s, d) == DYING)
            && s.cpus[d].env != s.cpus[c].env)
    ensures !Critical(s.cpus[d].pc) && !(s.cpus[d].pc == Done || s.cpus[d].pc == Sched)
  {
    assert Seated(s, d);
  }

  predicate Busy(st: Status) { st == RUNNING || st == DYING }

  /** A step under the lock: it may seat c elsewhere and change environments, as long as the other CPUs'
      environments stay theirs. */
  lemma KernelStep(s: State, s': State, c: nat)
    requires Inv(s) && c < |s.cpus| == |s'.cpus| && |s'.envs| == |s.envs| && s'.locked == s.locked
             && s'.owner == s.owner
    requires Named(s.cpus[c].pc) && Named(s'.cpus[c].pc)
    requires forall d :: 0 <= d < |s.cpus| && d != c ==> s'.cpus[d] == s.cpus[d]
    requires forall d :: 0 <= d < |s.cpus| && d != c && s.cpus[d].env != NONE ==> s'.cpus[c].env != s.cpus[d].env
    requires forall e :: 0 <= e < |s.envs| && Busy(s.envs[e].status) && e != s.cpus[c].env ==> Busy(s'.envs[e].status)
    requires forall e :: 0 <= e < |s.envs| && Busy(s'.envs[e].status) ==>
               e == s'.cpus[c].env || (Busy(s.envs[e].status) && e != s.cpus[c].env)
    requires ReceiversBlocked(s')
    requires Seated(s', c) && s'.cpus[c].pc != Panicked && (s'.cpus[c].halted <==> ToOf(s'.cpus[c].pc, ToHalt))
    ensures Inv(s')
  {
    hide LockInv;
    SameLock(s, s', c);
    forall d: nat | d < |s.cpus| && d != c ensures Seated(s', d) { OtherSeated(s, s', c, d); }
    forall e: nat | e < |s.envs| && Busy(s'.envs[e].status) ensures OnCpu(s', e) { StillOnCpu(s, s', c, e); }
  }

  lemma OtherSeated(s: State, s': State, c: nat, d: nat)
    requires Inv(s) && c < |s.cpus| == |s'.cpus| && |s'.envs| == |s.envs| && Critical(s.cpus[c].pc)
    requires d < |s.cpus| && d != c && s'.cpus[d] == s.cpus[d]
    requires forall e :: 0 <= e < |s.envs| && Busy(s.envs[e].status) && e != s.cpus[c].env ==> Busy(s'.envs[e].status)
    ensures Seated(s', d)
  {
    assert Seated(s, d);
    Others(s, c, d);
  }

  lemma StillOnCpu(s: State, s': State, c: nat, e: nat)
    requires EnvInv(s) && c < |s.cpus| == |s'.cpus| && e < |s.envs|
    requires forall d :: 0 <= d < |s.cpus| && d != c ==> s'.cpus[d] == s.cpus[d]
    requires e == s'.cpus[c].env || (Busy(s.envs[e].status) && e != s.cpus[c].env)
    ensures OnCpu(s', e)
  {
    if e == s'.cpus[c].env {
      assert s'.cpus[c].env == e;
    } else {
      assert OnCpu(s, e);
      var d :| 0 <= d < |s.cpus| && s.cpus[d].env == e;
      assert s'.cpus[d].env == e;
    }
  }

  /** Nothing but CPU c's program counter moves. */
  lemma MoveKeeps(s: State, c: nat, a: Action)
    requires Inv(s) && CanDo(s, c, a) && (a == NothingA || a == YieldA)
    ensures Inv(Do(s, c, a))
  {
    hide LockInv, EnvInv;
    AtCpu(s, c);
    SameLock(s, Do(s, c, a), c);
    SameEnvs(s, Do(s, c, a), c);
  }

  lemma EnvFacts(s: State, c: nat)
    requires Inv(s) && c < |s.cpus| && Critical(s.cpus[c].pc)
    ensures forall d :: 0 <= d < |s.cpus| && d != c && s.cpus[d].env != NONE ==>
              0 <= s.cpus[d].env < |s.envs| && Busy(s.envs[s.cpus[d].env].status) && s.cpus[d].env != s.cpus[c].env
    ensures ReceiversBlocked(s)
  {
    forall d | 0 <= d < |s.cpus| && d != c && s.cpus[d].env != NONE
      ensures 0 <= s.cpus[d].env < |s.envs| && Busy(s.envs[s.cpus[d].env].status) && s.cpus[d].env != s.cpus[c].env
    {
      Others(s, c, d);
    }
  }

  lemma ReapKeeps(s: State, c: nat)
    requires Inv(s) && CanDo(s, c, ReapA)
    ensures Inv(Do(s, c, ReapA))
  {
    hide LockInv, EnvInv;
    AtCpu(s, c);
    EnvFacts(s, c);
    KernelStep(s, Do(s, c, ReapA), c);
  }

  /** env_run of an environment that is RUNNABLE, or of the current one. */
  lemma EnvRunKeeps(s: State, c: nat, e: nat)
    requires Inv(s) && c < |s.cpus| && e < |s.envs| && (s.cpus[c].pc == Sched || s.cpus[c].pc == Done)
    requires s.envs[e].status == RUNNABLE || (s.cpus[c].env == e && s.envs[e].status == RUNNING)
    ensures Inv(EnvRun(s, c, e))
  {
    hide LockInv, EnvInv;
    AtCpu(s, c);
    EnvFacts(s, c);
    KernelStep(s, EnvRun(s, c, e), c);
  }

  lemma DoneKeeps(s: State, c: nat)
    requires Inv(s) && CanDo(s, c, DoneA)
    ensures Inv(Do(s, c, DoneA))
  {
    hide LockInv, EnvInv, EnvRun;
    AtCpu(s, c);
    if HasEnv(s, c) && CurStatus(s, c) == RUNNING {
      EnvRunKeeps(s, c, s.cpus[c].env);
    } else {
      SameLock(s, Do(s, c, DoneA), c);
      SameEnvs(s, Do(s, c, DoneA), c);
    }
  }

  lemma RestKeeps(s: State, c: nat)
    requires Inv(s) && CanDo(s, c, RestA)
    ensures Inv(Do(s, c, RestA))
  {
    hide LockInv, EnvInv, EnvRun, AnyLive, AnyRunnable;
    AtCpu(s, c);
    EnvFacts(s, c);
    if HasEnv(s, c) && CurStatus(s, c) == RUNNING {
      EnvRunKeeps(s, c, s.cpus[c].env);
    } else {
      KernelStep(s, Do(s, c, RestA), c);
    }
  }

  lemma CreateKeeps(s: State, c: nat, a: Action)
    requires Inv(s) && CanDo(s, c, a) && (a.CreateA? || a.ExoforkA?)
    ensures Inv(Do(s, c, a))
  {
    hide LockInv, EnvInv;
    AtCpu(s, c);
    EnvFacts(s, c);
    KernelStep(s, Do(s, c, a), c);
  }

  lemma IpcKeeps(s: State, c: nat, a: Action)
    requires Inv(s) && CanDo(s, c, a) && (a.WakeA? || a.BlockA?)
    ensures Inv(Do(s, c, a))
  {
    hide Inv, Do, CanDo;
    if a.WakeA? {
      WakeKeeps(s, c, a.e);
    } else {
      BlockKeeps(s, c);
    }
  }

  lemma WakeKeeps(s: State, c: nat, e: nat)
    requires Inv(s) && CanDo(s, c, WakeA(e))
    ensures Inv(Do(s, c, WakeA(e)))
  {
    WokenNotBusy(s, c, e);
    hide LockInv, EnvInv;
    AtCpu(s, c);
    EnvFacts(s, c);
    KernelStep(s, Do(s, c, WakeA(e)), c);
  }

  lemma BlockKeeps(s: State, c: nat)
    requires Inv(s) && CanDo(s, c, BlockA)
    ensures Inv(Do(s, c, BlockA))
  {
    hide LockInv, EnvInv;
    AtCpu(s, c);
    EnvFacts(s, c);
    KernelStep(s, Do(s, c, BlockA), c);
  }

  lemma WokenNotBusy(s: State, c: nat, e: nat)
    requires Inv(s) && CanDo(s, c, WakeA(e))
    ensures s.cpus[c].env != e ==> !Busy(s.envs[e].status)
  {
    if |s.cpus| == 1 && s.cpus[c].env != e {
      BusyOnCpu(s, e);
    }
  }

  /** env_destroy keeps the invariant exactly when its target is not DYING already. */
  lemma DestroyKeepsIff(s: State, c: nat, e: nat)
    requires Inv(s) && CanDo(s, c, DestroyA(e))
    ensures Inv(Do(s, c, DestroyA(e))) <==> s.envs[e].status != DYING
  {
    hide LockInv;
    AtCpu(s, c);
    var s' := Do(s, c, DestroyA(e));
    if s.envs[e].status == DYING {
      assert OnCpu(s, e);
      var d :| 0 <= d < |s.cpus| && s.cpus[d].env == e;
      assert d != c;
      assert !Seated(s', d) by { Others(s, c, d); }
    } else {
      DestroyKeeps(s, c, e);
    }
  }

  lemma DestroyKeeps(s: State, c: nat, e: nat)
    requires Inv(s) && CanDo(s, c, DestroyA(e)) && s.envs[e].status != DYING
    ensures Inv(Do(s, c, DestroyA(e)))
  {
    hide LockInv, EnvInv;
    AtCpu(s, c);
    EnvFacts(s, c);
    KernelStep(s, Do(s, c, DestroyA(e)), c);
  }

  /** sys_env_set_status keeps the invariant exactly when its target is the caller or on no CPU, and is
      not a blocked receiver made RUNNABLE. */
  lemma StatusKeepsIff(s: State, c: nat, e: nat, st: Status)
    requires Inv(s) && CanDo(s, c, StatusA(e, st))
    ensures Inv(Do(s, c, StatusA(e, st))) <==> StatusGuard(s, c, e, st)
  {
    hide LockInv;
    AtCpu(s, c);
    var s' := Do(s, c, StatusA(e, st));
    if StatusGuard(s, c, e, st) {
      StatusKeeps(s, c, e, st);
    } else if s.cpus[c].env != e && OnCpu(s, e) {
      var d :| 0 <= d < |s.cpus| && s.cpus[d].env == e;
      assert !Seated(s', d) by { Others(s, c, d); }
    } else {
      assert s'.envs[e].recving && s'.envs[e].status == RUNNABLE;
    }
  }

  lemma BusyOnCpu(s: State, e: nat)
    requires Inv(s) && e < |s.envs| && forall d :: 0 <= d < |s.cpus| ==> s.cpus[d].env != e
    ensures !Busy(s.envs[e].status)
  {
  }

  lemma StatusKeeps(s: State, c: nat, e: nat, st: Status)
    requires Inv(s) && CanDo(s, c, StatusA(e, st)) && StatusGuard(s, c, e, st)
    ensures Inv(Do(s, c, StatusA(e, st)))
  {
    hide LockInv, EnvInv;
    AtCpu(s, c);
    EnvFacts(s, c);
    if s.cpus[c].env != e {
      BusyOnCpu(s, e);
    }
    KernelStep(s, Do(s, c, StatusA(e, st)), c);
  }

  lemma StepKeeps(s: State, c: nat, a: Action)
    requires Inv(s) && CanDo(s, c, a) && Guarded(s, c, a)
    ensures Inv(Do(s, c, a))
  {
    hide LockInv, EnvInv, Do;
    match a
    case TrapA => TrapKeeps(s, c);
    case LockA => LockKeeps(s, c);
    case UnlockA => UnlockKeeps(s, c);
    case ReapA => ReapKeeps(s, c);
    case DoneA => DoneKeeps(s, c);
    case RunA(e) => RunKeeps(s, c, e);
    case RestA => RestKeeps(s, c);
    case NothingA => MoveKeeps(s, c, a);
    case YieldA => MoveKeeps(s, c, a);
    case CreateA(_) => CreateKeeps(s, c, a);
    case ExoforkA(_) => CreateKeeps(s, c, a);
    case StatusA(e, st) => StatusKeeps(s, c, e, st);
    case DestroyA(e) => DestroyKeeps(s, c, e);
    case WakeA(_) => IpcKeeps(s, c, a);
    case BlockA => IpcKeeps(s, c, a);
  }

  lemma RunKeeps(s: State, c: nat, e: nat)
    requires Inv(s) && CanDo(s, c, RunA(e))
    ensures Inv(Do(s, c, RunA(e)))
  {
    hide LockInv, EnvInv, EnvRun;
    EnvRunKeeps(s, c, e);
  }

  // ---------------------------------------------------------------- whole runs

  /** All CPUs before their first lock_kernel, no environment running yet. */
  ghost predicate Init(s: State) {
    && !s.locked && s.owner == NONE
    && (forall c :: 0 <= c < |s.cpus| ==> s.cpus[c] == Cpu(Boot, NONE, false))
    && (forall e :: 0 <= e < |s.envs| ==> s.envs[e] == EnvState(FREE, false))
  }

  lemma InitInv(s: State)
    requires Init(s)
    ensures Inv(s)
  {
  }

  datatype Turn = Turn(cpu: nat, action: Action)

  /** Any interleaving of single steps of the CPUs. */
  ghost predicate Run(states: seq<State>, turns: seq<Turn>) {
    && |states| == |turns| + 1 && Init(states[0])
    && forall i :: 0 <= i < |turns| ==>
         && CanDo(states[i], turns[i].cpu, turns[i].action) && Guarded(states[i], turns[i].cpu, turns[i].action)
         && states[i+1] == Do(states[i], turns[i].cpu, turns[i].action)
  }

  lemma {:induction false} RunKeepsInv(states: seq<State>, turns: seq<Turn>, n: nat)
    requires Run(states, turns) && n < |states|
    ensures Inv(states[n])
  {
    hide LockInv, EnvInv, Do, CanDo, Guarded;
    if n == 0 {
      InitInv(states[0]);
    } else {
      RunKeepsInv(states, turns, n - 1);
      StepKeeps(states[n-1], turns[n-1].cpu, turns[n-1].action);
    }
  }

  /** CPU c has passed the xchg that takes the lock and not yet the one that gives it back. */
  predicate Holds(s: State, c: nat) { c < |s.cpus| && Critical(s.cpus[c].pc) }

  /** CPU c is about to spin for the lock. */
  predicate Wants(s: State, c: nat) {
    c < |s.cpus| && (s.cpus[c].pc.SeeLocked? || s.cpus[c].pc.SeeCpu? || s.cpus[c].pc.Spin?)
  }

  ghost predicate OnExactlyOne(s: State, e: nat) {
    exists c: nat :: c < |s.cpus| && s.cpus[c].env == e
                     && forall d: nat :: d < |s.cpus| && s.cpus[d].env == e ==> d == c
  }

  /** What the kernel is to guarantee in every state: one holder of the lock at most, who does not ask for
      it again; no panic; in user mode only RUNNING or DYING environments; traps of RUNNING environments
      only are dispatched; and while the lock is free each RUNNING or DYING environment is on one CPU. */
  ghost predicate Safe(s: State) {
    && (forall c: nat, d: nat :: Holds(s, c) && Holds(s, d) ==> c == d)
    && (forall c: nat :: c < |s.cpus| ==> s.cpus[c].pc != Panicked && !(Holds(s, c) && Wants(s, c)))
    && (forall c: nat :: c < |s.cpus| && s.cpus[c].pc == User ==> HasEnv(s, c) && Busy(CurStatus(s, c)))
    && (forall c: nat :: c < |s.cpus| && s.cpus[c].pc == Kernel ==> HasEnv(s, c) && CurStatus(s, c) == RUNNING)
    && (!s.locked ==> forall e: nat :: e < |s.envs| && Busy(s.envs[e].status) ==> OnExactlyOne(s, e))
  }

  lemma InvSafe(s: State)
    requires Inv(s)
    ensures Safe(s)
  {
    forall c: nat | c < |s.cpus| && (s.cpus[c].pc == User || s.cpus[c].pc == Kernel)
      ensures HasEnv(s, c) && Busy(CurStatus(s, c)) && (s.cpus[c].pc == Kernel ==> CurStatus(s, c) == RUNNING)
    {
      assert Seated(s, c);
    }
    forall e: nat | e < |s.envs| && Busy(s.envs[e].status) ensures OnExactlyOne(s, e) {
      assert OnCpu(s, e);
      var c: nat :| c < |s.cpus| && s.cpus[c].env == e;
      assert forall d: nat :: d < |s.cpus| && s.cpus[d].env == e ==> d == c;
    }
  }

  /** Safety over all interleavings. */
  lemma Safety(states: seq<State>, turns: seq<Turn>, n: nat)
    requires Run(states, turns) && n < |states|
    ensures Safe(states[n])
  {
    RunKeepsInv(states, turns, n);
    InvSafe(states[n]);
  }

  // ---------------------------------------------------------------- what the two careless calls lead to

  /** Turns that can be taken one after the other from s on, each with the care it needs. */
  ghost predicate Legal(s: State, turns: seq<Turn>)
    decreases |turns|
  {
    turns != [] ==>
      && CanDo(s, turns[0].cpu, turns[0].action) && Guarded(s, turns[0].cpu, turns[0].action)
      && Legal(Do(s, turns[0].cpu, turns[0].action), turns[1..])
  }

  ghost function End(s: State, turns: seq<Turn>): State
    decreases |turns|
  {
    if turns == [] || turns[0].cpu >= |s.cpus| then s else End(Do(s, turns[0].cpu, turns[0].action), turns[1..])
  }

  ghost predicate Reach(s: State, s': State) { exists turns :: Legal(s, turns) && End(s, turns) == s' }

  lemma ReachSelf(s: State)
    ensures Reach(s, s)
  {
    assert Legal(s, []) && End(s, []) == s;
  }

  lemma ReachStep(s: State, c: nat, a: Action, s': State)
    requires CanDo(s, c, a) && Guarded(s, c, a) && Reach(Do(s, c, a), s')
    ensures Reach(s, s')
  {
    var rest :| Legal(Do(s, c, a), rest) && End(Do(s, c, a), rest) == s';
    var turns := [Turn(c, a)] + rest;
    assert turns[1..] == rest;
    assert Legal(s, turns) && End(s, turns) == s';
  }

  lemma {:induction false} ReachKeeps(s: State, turns: seq<Turn>)
    requires Inv(s) && Legal(s, turns)
    ensures Inv(End(s, turns))
    decreases |turns|
  {
    if turns != [] {
      StepKeeps(s, turns[0].cpu, turns[0].action);
      ReachKeeps(Do(s, turns[0].cpu, turns[0].action), turns[1..]);
    }
  }

  /** From s on, careful turns can lead to a state that is not safe. */
  ghost predicate CanBreak(s: State) { exists s' :: Reach(s, s') && !Safe(s') }

  lemma InvNeverBreaks(s: State)
    requires Inv(s)
    ensures !CanBreak(s)
  {
    hide Inv, Safe;
    forall s' | Reach(s, s') ensures Safe(s') {
      var turns :| Legal(s, turns) && End(s, turns) == s';
      ReachKeeps(s, turns);
      InvSafe(s');
    }
  }

  lemma BreakStep(s: State, c: nat, a: Action)
    requires CanDo(s, c, a) && Guarded(s, c, a) && CanBreak(Do(s, c, a))
    ensures CanBreak(s)
  {
    hide Do, Safe, Reach;
    var s' :| Reach(Do(s, c, a), s') && !Safe(s');
    ReachStep(s, c, a, s');
  }

  lemma BreaksNow(s: State)
    requires !Safe(s)
    ensures CanBreak(s)
  {
    ReachSelf(s);
  }

  /** CPU c has released the lock and is in user mode. */
  function Released(s: State, c: nat): State
    requires c < |s.cpus|
  {
    Go(s, c, User).(locked := false, owner := NONE)
  }

  lemma UnlockReaches(s: State, c: nat, s': State)
    requires c < |s.cpus| && s.cpus[c].pc == UnLocked(ToUser) && s.locked && s.owner == c && Reach(Released(s, c), s')
    ensures Reach(s, s')
  {
    hide Reach;
    var s1 := Go(s, c, UnCpu(ToUser));
    var s2 := Go(s, c, Clear(ToUser));
    var s3 := Go(s, c, Release(ToUser)).(owner := NONE);
    assert UnlockStep(s, c) == s1 && UnlockStep(s1, c) == s2 && UnlockStep(s2, c) == s3;
    assert UnlockStep(s3, c) == Released(s, c);
    ReachStep(s3, c, UnlockA, s');
    ReachStep(s2, c, UnlockA, s');
    ReachStep(s1, c, UnlockA, s');
    ReachStep(s, c, UnlockA, s');
  }

  lemma UnlockBreaks(s: State, c: nat)
    requires c < |s.cpus| && s.cpus[c].pc == UnLocked(ToUser) && s.locked && s.owner == c && CanBreak(Released(s, c))
    ensures CanBreak(s)
  {
    hide Safe, Reach;
    var s' :| Reach(Released(s, c), s') && !Safe(s');
    UnlockReaches(s, c, s');
  }

  /** CPU d has taken the lock. */
  function Acquired(s: State, d: nat, from: From): State
    requires d < |s.cpus|
  {
    Go(s, d, if from == FromUser then Reap else Idle).(locked := true, owner := d)
  }

  lemma LockReaches(s: State, d: nat, from: From, s': State)
    requires d < |s.cpus| && !s.locked && s.owner == NONE && from != Twice
    requires s.cpus[d].pc == SeeLocked(from) || s.cpus[d].pc == SeeCpu(from) || s.cpus[d].pc == Spin(from)
    requires Reach(Acquired(s, d, from), s')
    ensures Reach(s, s')
  {
    hide Reach;
    var s1 := Go(s, d, Spin(from));
    var s2 := Go(s, d, Own(from)).(locked := true);
    assert Do(s1, d, LockA) == s2 && Do(s2, d, LockA) == Acquired(s, d, from);
    ReachStep(s2, d, LockA, s');
    ReachStep(s1, d, LockA, s');
    if s.cpus[d].pc == Spin(from) {
      assert s == s1;
    } else {
      assert Do(s, d, LockA) == s1;
      ReachStep(s, d, LockA, s');
    }
  }

  lemma LockBreaks(s: State, d: nat, from: From)
    requires d < |s.cpus| && !s.locked && s.owner == NONE && from != Twice
    requires s.cpus[d].pc == SeeLocked(from) || s.cpus[d].pc == SeeCpu(from) || s.cpus[d].pc == Spin(from)
    requires CanBreak(Acquired(s, d, from))
    ensures CanBreak(s)
  {
    hide Safe, Reach;
    var s' :| Reach(Acquired(s, d, from), s') && !Safe(s');
    LockReaches(s, d, from, s');
  }

  /** A call has ended; its CPU returns to its own environment. */
  lemma DoneBreaks(s: State, c: nat)
    requires c < |s.cpus| && s.cpus[c].pc == Done && s.locked && s.owner == c && HasEnv(s, c)
             && CurStatus(s, c) == RUNNING
    requires CanBreak(Released(s, c))
    ensures CanBreak(s)
  {
    hide CanBreak, Safe;
    var s1 := Go(s, c, UnLocked(ToUser));
    assert EnvRun(s, c, s.cpus[c].env).envs == s.envs;
    assert Do(s, c, DoneA) == s1;
    assert Released(s1, c) == Released(s, c);
    UnlockBreaks(s1, c);
    BreakStep(s, c, DoneA);
  }

  /** Where a CPU outside the kernel can be while it has an environment. */
  predicate Outside(pc: Pc) {
    pc == User || pc == SeeLocked(FromUser) || pc == SeeCpu(FromUser) || pc == Spin(FromUser)
  }

  /** The environment of another CPU has been stopped or freed behind its back: either it runs on in user
      mode, or its trap is dispatched. */
  lemma TakenAwayBreaks(s: State, c: nat, d: nat)
    requires c < |s.cpus| && d < |s.cpus| && c != d && s.cpus[c].pc == Done && s.locked && s.owner == c
    requires HasEnv(s, c) && CurStatus(s, c) == RUNNING
    requires Outside(s.cpus[d].pc) && HasEnv(s, d) && !Busy(CurStatus(s, d))
    ensures CanBreak(s)
  {
    if s.cpus[d].pc == User {
      BreaksNow(s);
    } else {
      var s1 := Released(s, c);
      var s2 := Acquired(s1, d, FromUser);
      var s3 := Go(s2, d, Kernel);
      assert Do(s2, d, ReapA) == s3;
      assert s3.cpus[d].pc == Kernel && HasEnv(s3, d) && CurStatus(s3, d) != RUNNING;
      BreaksNow(s3);
      BreakStep(s2, d, ReapA);
      LockBreaks(s1, d, FromUser);
      DoneBreaks(s, c);
    }
  }

  /** Another CPU's environment, while c is in the kernel. */
  lemma OtherOutside(s: State, c: nat, d: nat)
    requires Inv(s) && c < |s.cpus| && d < |s.cpus| && d != c && Critical(s.cpus[c].pc) && s.cpus[d].env != NONE
    ensures Outside(s.cpus[d].pc) && HasEnv(s, d) && Busy(CurStatus(s, d)) && s.cpus[d].env != s.cpus[c].env
  {
    assert Seated(s, d);
    Others(s, c, d);
  }

  /** env_destroy of a DYING environment, and only that, can break safety. */
  lemma DestroyBreaksIff(s: State, c: nat, e: nat)
    requires Inv(s) && CanDo(s, c, DestroyA(e))
    ensures CanBreak(Do(s, c, DestroyA(e))) <==> s.envs[e].status == DYING
  {
    hide Inv, CanBreak, Do;
    if s.envs[e].status == DYING {
      DyingDestroyed(s, c, e);
    } else {
      DestroyKeeps(s, c, e);
      InvNeverBreaks(Do(s, c, DestroyA(e)));
    }
  }

  lemma DyingDestroyed(s: State, c: nat, e: nat)
    requires Inv(s) && CanDo(s, c, DestroyA(e)) && s.envs[e].status == DYING
    ensures CanBreak(Do(s, c, DestroyA(e)))
  {
    var d := BusyIsOnCpu(s, e);
    hide Inv, CanBreak, Critical, Named, Seated;
    InKernel(s, c);
    OtherOutside(s, c, d);
    TakenAwayBreaks(Do(s, c, DestroyA(e)), c, d);
  }

  lemma BusyIsOnCpu(s: State, e: nat) returns (d: nat)
    requires EnvInv(s) && e < |s.envs| && Busy(s.envs[e].status)
    ensures d < |s.cpus| && s.cpus[d].env == e
  {
    assert OnCpu(s, e);
    d :| d < |s.cpus| && s.cpus[d].env == e;
  }

  // ---------------------------------------------------------------- a blocked receiver made RUNNABLE

  /** CPU c is in user mode with a RUNNING environment other than e. */
  predicate RunsAnother(s: State, c: nat, e: nat) {
    c < |s.cpus| && s.cpus[c].pc == User && !s.cpus[c].halted && HasEnv(s, c) && CurStatus(s, c) == RUNNING
        && s.cpus[c].env != e
  }

  /** e waits for a message, but has this status. */
  predicate Receiver(s: State, e: nat, st: Status) { e < |s.envs| && s.envs[e].recving && s.envs[e].status == st }

  /** It runs on d; then c sends it the message, and it is RUNNABLE and in user mode at once. */
  lemma SendBreaks(s: State, c: nat, d: nat, e: nat)
    requires RunsAnother(s, c, e) && Receiver(s, e, RUNNING) && d < |s.cpus| && d != c && !s.locked && s.owner == NONE
    requires s.cpus[d].pc == User && s.cpus[d].env == e
    ensures CanBreak(s)
  {
    hide CanBreak, Safe;
    var s1 := Go(s, c, SeeLocked(FromUser));
    var s2 := Acquired(s1, c, FromUser);
    var s3 := Go(s2, c, Kernel);
    var s4 := Wake(s3, c, e);
    assert Do(s, c, TrapA) == s1 && Do(s2, c, ReapA) == s3 && Do(s3, c, WakeA(e)) == s4;
    assert !Safe(s4) by { NotBusyInUser(s4, d); }
    BreaksNow(s4);
    BreakStep(s3, c, WakeA(e));
    BreakStep(s2, c, ReapA);
    LockBreaks(s1, c, FromUser);
    BreakStep(s, c, TrapA);
  }

  lemma NotBusyInUser(s: State, d: nat)
    requires d < |s.cpus| && s.cpus[d].pc == User && HasEnv(s, d) && !Busy(CurStatus(s, d))
    ensures !Safe(s)
  {
  }

  /** d is in the scheduler: it picks e. */
  lemma PickBreaks(s: State, c: nat, d: nat, e: nat)
    requires RunsAnother(s, c, e) && Receiver(s, e, RUNNABLE) && d < |s.cpus| && d != c && s.locked && s.owner == d
    requires s.cpus[d].pc == Sched && (s.cpus[d].env == NONE
             || (HasEnv(s, d) && s.cpus[d].env != e && s.cpus[d].env != s.cpus[c].env))
    ensures CanBreak(s)
  {
    hide CanBreak, Safe;
    var s1 := EnvRun(s, d, e);
    SendBreaks(Released(s1, d), c, d, e);
    UnlockBreaks(s1, d);
    BreakStep(s, d, RunA(e));
  }

  /** d has just taken the lock. */
  lemma EnteredBreaks(s: State, c: nat, d: nat, e: nat)
    requires RunsAnother(s, c, e) && Receiver(s, e, RUNNABLE) && d < |s.cpus| && d != c && s.locked && s.owner == d
    requires (s.cpus[d].pc == Idle && s.cpus[d].env == NONE) ||
             (s.cpus[d].pc == Reap && HasEnv(s, d) && s.cpus[d].env != e && s.cpus[d].env != s.cpus[c].env)
    ensures CanBreak(s)
  {
    hide CanBreak, Safe;
    if s.cpus[d].pc == Idle {
      PickBreaks(Go(s, d, Sched), c, d, e);
      BreakStep(s, d, YieldA);
    } else if CurStatus(s, d) == DYING {
      PickBreaks(Do(s, d, ReapA), c, d, e);
      BreakStep(s, d, ReapA);
    } else {
      var s1 := Go(s, d, Kernel);
      PickBreaks(Go(s1, d, Sched), c, d, e);
      BreakStep(s1, d, YieldA);
      assert Do(s, d, ReapA) == s1;
      BreakStep(s, d, ReapA);
    }
  }

  /** d is outside the kernel, wherever that may be. */
  predicate Idling(s: State, d: nat, c: nat, e: nat) {
    && d < |s.cpus| && c < |s.cpus| && d != c
    && (s.cpus[d].halted <==> s.cpus[d].pc == Halted)
    && (if Outside(s.cpus[d].pc) then HasEnv(s, d) && s.cpus[d].env != e && s.cpus[d].env != s.cpus[c].env
        else s.cpus[d].env == NONE && (s.cpus[d].pc == Halted || s.cpus[d].pc == Boot || Waits(s.cpus[d].pc)))
  }

  /** A woken or booting CPU that has not got the lock yet. */
  predicate Waits(pc: Pc) {
    (pc.SeeLocked? || pc.SeeCpu? || pc.Spin?) && (pc.from == FromHalt || pc.from == FromBoot)
  }

  lemma WaitingBreaks(s: State, c: nat, d: nat, e: nat)
    requires RunsAnother(s, c, e) && Receiver(s, e, RUNNABLE) && !s.locked && s.owner == NONE
    requires Idling(s, d, c, e) && (s.cpus[d].pc.SeeLocked? || s.cpus[d].pc.SeeCpu? || s.cpus[d].pc.Spin?)
    ensures CanBreak(s)
  {
    hide CanBreak, Safe;
    var from := s.cpus[d].pc.from;
    EnteredBreaks(Acquired(s, d, from), c, d, e);
    LockBreaks(s, d, from);
  }

  lemma IdlingBreaks(s: State, c: nat, d: nat, e: nat)
    requires RunsAnother(s, c, e) && Receiver(s, e, RUNNABLE) && !s.locked && s.owner == NONE && Idling(s, d, c, e)
    ensures CanBreak(s)
  {
    hide CanBreak, Safe;
    if s.cpus[d].pc == User || s.cpus[d].pc == Halted {
      WaitingBreaks(Do(s, d, TrapA), c, d, e);
      BreakStep(s, d, TrapA);
    } else if s.cpus[d].pc == Boot {
      WaitingBreaks(Do(s, d, LockA), c, d, e);
      BreakStep(s, d, LockA);
    } else {
      WaitingBreaks(s, c, d, e);
    }
  }

  lemma OtherIdling(s: State, c: nat, d: nat, e: nat)
    requires Inv(s) && c < |s.cpus| && d < |s.cpus| && d != c && Critical(s.cpus[c].pc) && e < |s.envs|
             && !Busy(s.envs[e].status)
    ensures Idling(s, d, c, e)
  {
    AtCpu(s, d);
    Others(s, c, d);
  }

  lemma SameIdling(s: State, s': State, c: nat, d: nat, e: nat)
    requires Idling(s, d, c, e) && |s'.cpus| == |s.cpus| && |s'.envs| == |s.envs|
    requires s'.cpus[d] == s.cpus[d] && s'.cpus[c].env == s.cpus[c].env
    ensures Idling(s', d, c, e)
  {
  }

  /** With a second CPU, a receiver that runs before its message arrives can be hit by it in user mode. */
  lemma ReceiverBreaks(s: State, c: nat, e: nat)
    requires Inv(s) && CanDo(s, c, StatusA(e, RUNNABLE)) && |s.cpus| >= 2 && s.envs[e].recving
    ensures CanBreak(Do(s, c, StatusA(e, RUNNABLE)))
  {
    hide Inv, CanBreak, Safe, Critical, Named, Seated, Idling;
    InKernel(s, c);
    var d: nat := if c == 0 then 1 else 0;
    EnvFacts(s, c);
    OtherIdling(s, c, d, e);
    var s' := Do(s, c, StatusA(e, RUNNABLE));
    SameIdling(s, Released(s', c), c, d, e);
    assert RunsAnother(Released(s', c), c, e);
    IdlingBreaks(Released(s', c), c, d, e);
    DoneBreaks(s', c);
  }

  /** sys_env_set_status can break safety exactly when its target is on another CPU, or is a blocked
      receiver made RUNNABLE while there is a second CPU. */
  lemma StatusBreaksIff(s: State, c: nat, e: nat, st: Status)
    requires Inv(s) && CanDo(s, c, StatusA(e, st))
    ensures CanBreak(Do(s, c, StatusA(e, st))) <==> !StatusGuard(s, c, e, st)
  {
    hide CanBreak, Inv, Do;
    if StatusGuard(s, c, e, st) {
      StatusKeeps(s, c, e, st);
      InvNeverBreaks(Do(s, c, StatusA(e, st)));
    } else if s.cpus[c].env != e && OnCpu(s, e) {
      RunningStopped(s, c, e, st);
    } else {
      ReceiverBreaks(s, c, e);
    }
  }

  lemma RunningStopped(s: State, c: nat, e: nat, st: Status)
    requires Inv(s) && CanDo(s, c, StatusA(e, st)) && s.cpus[c].env != e && OnCpu(s, e)
    ensures CanBreak(Do(s, c, StatusA(e, st)))
  {
    hide CanBreak, Inv, Safe, Critical, Named, Seated;
    var d: nat :| d < |s.cpus| && s.cpus[d].env == e;
    InKernel(s, c);
    OtherOutside(s, c, d);
    TakenAwayBreaks(Do(s, c, StatusA(e, st)), c, d);
  }

  // ---------------------------------------------------------------- one run for each of the two calls

  /** Two CPUs and two slots. */
  function Two(pc0: Pc, env0: int, pc1: Pc, env1: int, st0: Status, st1: Status, owner: int): State {
    State([Cpu(pc0, env0, false), Cpu(pc1, env1, false)], [EnvState(st0, false), EnvState(st1, false)],
          owner != NONE, owner)
  }

  function TwoBooting(): State { Two(Boot, NONE, Boot, NONE, FREE, FREE, NONE) }

  /** CPU 0 is in a system call of environment 0, CPU 1 runs environment 1. */
  function BothRunning(): State { Two(Kernel, 0, User, 1, RUNNING, RUNNING, 0) }

  /** CPU 0 has created both environments and runs the first. */
  function OneRunning(): State { Two(User, 0, Boot, NONE, RUNNING, RUNNABLE, NONE) }

  lemma ReachTrans(s: State, s1: State, s2: State)
    requires Reach(s, s1) && Reach(s1, s2)
    ensures Reach(s, s2)
  {
    var t1 :| Legal(s, t1) && End(s, t1) == s1;
    var t2 :| Legal(s1, t2) && End(s1, t2) == s2;
    Appended(s, t1, t2);
    assert Legal(s, t1 + t2) && End(s, t1 + t2) == s2;
  }

  lemma {:induction false} Appended(s: State, t1: seq<Turn>, t2: seq<Turn>)
    requires Legal(s, t1) && Legal(End(s, t1), t2)
    ensures Legal(s, t1 + t2) && End(s, t1 + t2) == End(End(s, t1), t2)
    decreases |t1|
  {
    hide Do, Guarded;
    if t1 == [] {
      assert t1 + t2 == t2;
    } else {
      Appended(Do(s, t1[0].cpu, t1[0].action), t1[1..], t2);
      assert (t1 + t2)[1..] == t1[1..] + t2;
    }
  }

  lemma FirstPicked()
    ensures Reach(Two(Sched, NONE, Boot, NONE, RUNNABLE, RUNNABLE, 0), OneRunning())
  {
    hide Reach;
    var s5 := Two(Sched, NONE, Boot, NONE, RUNNABLE, RUNNABLE, 0);
    var s6 := Two(UnLocked(ToUser), 0, Boot, NONE, RUNNING, RUNNABLE, 0);
    ReachSelf(OneRunning());
    assert Released(s6, 0) == OneRunning();
    UnlockReaches(s6, 0, OneRunning());
    assert Do(s5, 0, RunA(0)) == s6;
    ReachStep(s5, 0, RunA(0), OneRunning());
  }

  lemma FirstRuns()
    ensures Reach(TwoBooting(), OneRunning())
  {
    hide Reach;
    var s1 := Two(SeeLocked(FromBoot), NONE, Boot, NONE, FREE, FREE, NONE);
    var s2 := Two(Idle, NONE, Boot, NONE, FREE, FREE, 0);
    var s3 := Two(Idle, NONE, Boot, NONE, RUNNABLE, FREE, 0);
    var s4 := Two(Idle, NONE, Boot, NONE, RUNNABLE, RUNNABLE, 0);
    var s5 := Two(Sched, NONE, Boot, NONE, RUNNABLE, RUNNABLE, 0);
    FirstPicked();
    assert Do(s4, 0, YieldA) == s5;
    ReachStep(s4, 0, YieldA, OneRunning());
    assert Do(s3, 0, CreateA(1)) == s4;
    ReachStep(s3, 0, CreateA(1), OneRunning());
    assert Do(s2, 0, CreateA(0)) == s3;
    ReachStep(s2, 0, CreateA(0), OneRunning());
    assert Acquired(s1, 0, FromBoot) == s2;
    LockReaches(s1, 0, FromBoot, OneRunning());
    assert Do(TwoBooting(), 0, LockA) == s1;
    ReachStep(TwoBooting(), 0, LockA, OneRunning());
  }

  lemma SecondRuns()
    ensures Reach(OneRunning(), BothRunning())
  {
    hide Reach;
    var s1 := Two(User, 0, SeeLocked(FromBoot), NONE, RUNNING, RUNNABLE, NONE);
    var s2 := Two(User, 0, Idle, NONE, RUNNING, RUNNABLE, 1);
    var s3 := Two(User, 0, Sched, NONE, RUNNING, RUNNABLE, 1);
    var s4 := Two(User, 0, UnLocked(ToUser), 1, RUNNING, RUNNING, 1);
    var s5 := Two(User, 0, User, 1, RUNNING, RUNNING, NONE);
    Called(s5);
    assert Released(s4, 1) == s5;
    UnlockReaches(s4, 1, BothRunning());
    assert Do(s3, 1, RunA(1)) == s4;
    ReachStep(s3, 1, RunA(1), BothRunning());
    assert Do(s2, 1, YieldA) == s3;
    ReachStep(s2, 1, YieldA, BothRunning());
    assert Acquired(s1, 1, FromBoot) == s2;
    LockReaches(s1, 1, FromBoot, BothRunning());
    assert Do(OneRunning(), 1, LockA) == s1;
    ReachStep(OneRunning(), 1, LockA, BothRunning());
  }

  /** Environment 0 makes a system call. */
  lemma Called(s: State)
    requires s.cpus == [Cpu(User, 0, false), Cpu(User, 1, false)] && !s.locked && s.owner == NONE
    requires |s.envs| == 2 && s.envs[0].status == RUNNING
    ensures Reach(s, State([Cpu(Kernel, 0, false), Cpu(User, 1, false)], s.envs, true, 0))
  {
    hide Reach;
    var s1 := Go(s, 0, SeeLocked(FromUser));
    var s2 := Acquired(s1, 0, FromUser);
    var s3 := State([Cpu(Kernel, 0, false), Cpu(User, 1, false)], s.envs, true, 0);
    ReachSelf(s3);
    assert Do(s2, 0, ReapA) == s3;
    ReachStep(s2, 0, ReapA, s3);
    LockReaches(s1, 0, FromUser, s3);
    assert Do(s, 0, TrapA) == s1;
    ReachStep(s, 0, TrapA, s3);
  }

  lemma BothReached()
    ensures Reach(TwoBooting(), BothRunning())
  {
    hide *;
    FirstRuns();
    SecondRuns();
    ReachTrans(TwoBooting(), OneRunning(), BothRunning());
  }

  /** From boot: environment 0 stops environment 1 while that is in user mode on the other CPU. */
  lemma StatusRun()
    ensures Init(TwoBooting()) && Reach(TwoBooting(), BothRunning())
    ensures CanDo(BothRunning(), 0, StatusA(1, NOT_RUNNABLE)) && !Safe(Do(BothRunning(), 0, StatusA(1, NOT_RUNNABLE)))
  {
    hide Reach, Safe;
    BothReached();
    NotBusyInUser(Do(BothRunning(), 0, StatusA(1, NOT_RUNNABLE)), 1);
  }

  /** Environment 1 is a zombie that still runs on the other CPU. */
  function ZombieRunning(): State { Two(Kernel, 0, User, 1, RUNNING, DYING, 0) }

  lemma FirstDestroy()
    ensures Reach(BothRunning(), ZombieRunning())
  {
    hide Reach;
    var s1 := Two(Done, 0, User, 1, RUNNING, DYING, 0);
    var s2 := Two(UnLocked(ToUser), 0, User, 1, RUNNING, DYING, 0);
    var s3 := Two(User, 0, User, 1, RUNNING, DYING, NONE);
    Called(s3);
    assert Released(s2, 0) == s3;
    UnlockReaches(s2, 0, ZombieRunning());
    assert Do(s1, 0, DoneA) == s2;
    ReachStep(s1, 0, DoneA, ZombieRunning());
    assert Do(BothRunning(), 0, DestroyA(1)) == s1;
    ReachStep(BothRunning(), 0, DestroyA(1), ZombieRunning());
  }

  /** From boot: environment 0 destroys environment 1 twice; the second time it is freed while it runs. */
  lemma DestroyRun()
    ensures Init(TwoBooting()) && Reach(TwoBooting(), ZombieRunning())
    ensures CanDo(ZombieRunning(), 0, DestroyA(1)) && !Safe(Do(ZombieRunning(), 0, DestroyA(1)))
  {
    hide Reach, Safe;
    BothReached();
    FirstDestroy();
    ReachTrans(TwoBooting(), BothRunning(), ZombieRunning());
    NotBusyInUser(Do(ZombieRunning(), 0, DestroyA(1)), 1);
  }
}

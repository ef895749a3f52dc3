/**
  IPC on the kernel: any list of system calls by any environments, run on the environment table and the
  page tables, is a history of the kind IpcHistory speaks of.
*/
module IpcMachine {
  import opened Mmu
  import opened PageRefs
  import opened PageCounts
  import opened Spaces
  import opened Pmap
  import opened EnvIds
  import opened Envs
  import opened Syscalls
  import opened IpcSyscalls
  import opened UserPages
  import opened IpcHistory
  import EnvVm
  import Sched

  datatype Call =
    | Recv(env: nat, dstva: nat)
    | TrySend(env: nat, toid: int, value: int, srcva: nat, perm: Flags)
    | Exofork(env: nat)
    | SetStatus(env: nat, toid: int, status: Status)
    | PageAlloc(env: nat, toid: int, va: nat, perm: Flags)
    | PageMap(env: nat, srcid: int, srcva: nat, dstid: int, dstva: nat, perm: Flags)
    | PageUnmap(env: nat, toid: int, va: nat)
    | Destroy(env: nat, toid: int)
    | Reap(env: nat)                     // a zombie traps into the kernel
    | Yield(cur: int)                    // sched_yield on a CPU whose current environment is cur

  /** The result of a call that was not made: its caller is not running, or the count of the page it would
      map once more has no room left. */
  const NOT_MADE := -1000

  ghost function SysOf(m: PhysMem, t: EnvTable): Sys
    reads m, m.frames, m.pgdirs, t, t.envs
  {
    Sys(t.envs[..], Views(m.St()))
  }

  ghost predicate Leads(s: Sys, evs: seq<Event>, s': Sys) { Possible(s, evs) && After(s, evs) == s' }

  lemma LeadsNowhere(s: Sys)
    ensures Leads(s, [], s)
  {
  }

  lemma LeadsOne(s: Sys, ev: Event)
    requires CanDo(s, ev)
    ensures Leads(s, [ev], Do(s, ev))
  {
    assert [ev][..0] == [];
  }

  lemma {:induction false} LeadsOn(s: Sys, evs: seq<Event>, s1: Sys, more: seq<Event>, s2: Sys)
    requires Leads(s, evs, s1) && Leads(s1, more, s2)
    ensures Leads(s, evs + more, s2)
    decreases |more|
  {
    if more == [] {
      assert evs + more == evs;
    } else {
      var front := more[..|more|-1];
      LeadsOn(s, evs, s1, front, After(s1, front));
      assert (evs + more)[..|evs + more|-1] == evs + front;
    }
  }

  lemma LeadsTwo(s: Sys, e1: Event, e2: Event)
    requires CanDo(s, e1) && CanDo(Do(s, e1), e2)
    ensures Leads(s, [e1, e2], Do(Do(s, e1), e2))
  {
    LeadsOne(s, e1);
    LeadsOne(Do(s, e1), e2);
    LeadsOn(s, [e1], Do(s, e1), [e2], Do(Do(s, e1), e2));
    assert [e1] + [e2] == [e1, e2];
  }

  /** What a call puts into the history. */
  ghost predicate Records(call: Call, r: int, evs: seq<Event>) {
    match call
    case Recv(e, dstva) => evs == if r == OK then [RecvE(e, dstva)] else []
    case TrySend(e, toid, value, srcva, perm) =>
      evs == if r == OK then [SendE(SlotOf(toid, e), e, value, srcva, perm)] else []
    case PageAlloc(e, toid, va, _) => MapsOnce(r, evs, SlotOf(toid, e), PageNum(va))
    case PageMap(e, _, _, dstid, dstva, _) => MapsOnce(r, evs, SlotOf(dstid, e), PageNum(dstva))
    case PageUnmap(e, toid, va) => evs == if r == OK then [UnmapE(SlotOf(toid, e), PageNum(va))] else []
    case Exofork(_) => evs == [] || (|evs| == 2 && evs[0].AllocE? && evs[1].EnvE?)
    case SetStatus(_, _, _) => forall i :: 0 <= i < |evs| ==> evs[i].EnvE?
    case Yield(_) => forall i :: 0 <= i < |evs| ==> evs[i].EnvE?
    case _ => forall i :: 0 <= i < |evs| ==> evs[i].EnvE? || evs[i].EmptyE?
  }

  ghost predicate MapsOnce(r: int, evs: seq<Event>, e: nat, page: nat) {
    if r == OK then |evs| == 1 && evs[0].MapE? && evs[0].env == e && evs[0].page == page else evs == []
  }

  /** As many slots as the kernel has. */
  ghost predicate Sized(s: Sys) { |s.envs| == |s.views| == NENV }

  /** envid2env accepts the identifier. */
  predicate Finds(envs: seq<Env>, envid: int, cur: nat, checkperm: bool)
    requires |envs| == NENV && cur < NENV
  {
    || envid == 0
    || (&& envs[EnvX(envid)].status != FREE && envs[EnvX(envid)].id == envid
        && (checkperm ==> EnvX(envid) == cur || envs[EnvX(envid)].parent == envs[cur].id))
  }

  predicate Runs(envs: seq<Env>, e: nat) { e < |envs| && envs[e].status == RUNNING }

  /** The result of a call when memory suffices, by what the source tests. */
  function Wanted(s: Sys, call: Call): int
    requires |s.envs| == |s.views| == NENV && !call.Exofork? && !call.Yield?
  {
    if call.Reap? then if call.env < NENV && s.envs[call.env].status == DYING then OK else NOT_MADE
    else if !Runs(s.envs, call.env) then NOT_MADE
    else match call
    case Recv(_, dstva) => if dstva < UTOP && dstva % PGSIZE != 0 then -E_INVAL else OK
    case TrySend(e, toid, _, srcva, perm) =>
      if !Finds(s.envs, toid, e, false) then -E_BAD_ENV
      else if !s.envs[SlotOf(toid, e)].recving then -E_IPC_NOT_RECV
      else if srcva < UTOP && !Offers(s, e, srcva, perm) then -E_INVAL
      else OK
    case SetStatus(e, toid, status) =>
      if !Finds(s.envs, toid, e, true) then -E_BAD_ENV
      else if status != RUNNABLE && status != NOT_RUNNABLE then -E_INVAL
      else OK
    case PageAlloc(e, toid, va, perm) =>
      if !Finds(s.envs, toid, e, true) then -E_BAD_ENV else if !(UserPage(va) && perm.ForSyscall()) then -E_INVAL
          else OK
    case PageMap(e, srcid, srcva, dstid, dstva, perm) =>
      if !(Finds(s.envs, srcid, e, true) && Finds(s.envs, dstid, e, true)) then -E_BAD_ENV
      else if !MapArgs(s.views[SlotOf(srcid, e)], srcva, dstva, perm) then -E_INVAL
      else OK
    case PageUnmap(e, toid, va) =>
      if !Finds(s.envs, toid, e, true) then -E_BAD_ENV else if !UserPage(va) then -E_INVAL else OK
    case Destroy(e, toid) => if !Finds(s.envs, toid, e, true) then -E_BAD_ENV else OK
  }

  ghost predicate NoneFree(envs: seq<Env>) { forall i :: 0 <= i < |envs| ==> envs[i].status != FREE }

  /** Calls that may run out of memory. */
  predicate TakesMemory(s: Sys, call: Call)
    requires |s.envs| == |s.views| == NENV
  {
    match call
    case TrySend(e, toid, _, srcva, _) => srcva < UTOP && SlotOf(toid, e) < NENV && s.envs[SlotOf(toid, e)].dstva < UTOP
    case PageAlloc(_, _, _, _) => true
    case PageMap(_, _, _, _, _, _) => true
    case _ => false
  }

  /** Calls that map a page once more. */
  predicate PutsAgain(s: Sys, call: Call)
    requires |s.envs| == |s.views| == NENV
  {
    match call
    case TrySend(e, _, _, srcva, _) => e < NENV && PageNum(srcva) in s.views[e]
    case PageMap(e, srcid, srcva, _, _, _) => SlotOf(srcid, e) < NENV && PageNum(srcva) in s.views[SlotOf(srcid, e)]
    case _ => false
  }

  /** The result of a call made in state s: what the source's tests say, unless memory runs out or a count
      has no room. */
  ghost predicate Answers(s: Sys, call: Call, r: int)
    requires Sized(s)
  {
    match call
    case Exofork(e) =>
      if !Runs(s.envs, e) then r == NOT_MADE
      else if NoneFree(s.envs) then r == -E_NO_FREE_ENV
      else r > 0 || r == -E_NO_MEM
    case Yield(cur) =>
      if cur < NIL || cur >= NENV then r == NOT_MADE
      else
        && NIL <= r < NENV
        && (r == NIL <==> Sched.NoneRunnable(s.envs) && (cur == NIL || s.envs[cur].status != RUNNING))
    case _ =>
      || r == Wanted(s, call)
      || (r == -E_NO_MEM && Wanted(s, call) == OK && TakesMemory(s, call))
      || (r == NOT_MADE && PutsAgain(s, call))
  }

  /** Single calls, spelled out. */
  lemma RecvAnswers(s: Sys, e: nat, dstva: nat, r: int)
    requires Sized(s) && Runs(s.envs, e)
    requires r == if dstva < UTOP && dstva % PGSIZE != 0 then -E_INVAL else OK
    ensures Answers(s, Recv(e, dstva), r)
  {
  }

  lemma SendAnswers(s: Sys, e: nat, toid: int, value: int, srcva: nat, perm: Flags, r: int)
    requires Sized(s) && Runs(s.envs, e)
    requires if !Finds(s.envs, toid, e, false) then r == -E_BAD_ENV
             else if !s.envs[SlotOf(toid, e)].recving then r == -E_IPC_NOT_RECV
             else if srcva < UTOP && !Offers(s, e, srcva, perm) then r == -E_INVAL
             else r == OK || (r == -E_NO_MEM && srcva < UTOP && s.envs[SlotOf(toid, e)].dstva < UTOP)
    ensures Answers(s, TrySend(e, toid, value, srcva, perm), r)
  {
  }

  lemma SetStatusAnswers(s: Sys, e: nat, toid: int, status: Status, r: int)
    requires Sized(s) && Runs(s.envs, e)
    requires r == if !Finds(s.envs, toid, e, true) then -E_BAD_ENV
                  else if status != RUNNABLE && status != NOT_RUNNABLE then -E_INVAL else OK
    ensures Answers(s, SetStatus(e, toid, status), r)
  {
  }

  lemma PageAllocAnswers(s: Sys, e: nat, toid: int, va: nat, perm: Flags, r: int)
    requires Sized(s) && Runs(s.envs, e)
    requires if !Finds(s.envs, toid, e, true) then r == -E_BAD_ENV
             else if !(UserPage(va) && perm.ForSyscall()) then r == -E_INVAL
             else r == OK || r == -E_NO_MEM
    ensures Answers(s, PageAlloc(e, toid, va, perm), r)
  {
  }

  lemma PageMapAnswers(s: Sys, e: nat, srcid: int, srcva: nat, dstid: int, dstva: nat, perm: Flags, r: int)
    requires Sized(s) && Runs(s.envs, e)
    requires if !(Finds(s.envs, srcid, e, true) && Finds(s.envs, dstid, e, true)) then r == -E_BAD_ENV
             else if !MapArgs(s.views[SlotOf(srcid, e)], srcva, dstva, perm) then r == -E_INVAL
             else r == OK || r == -E_NO_MEM
    ensures Answers(s, PageMap(e, srcid, srcva, dstid, dstva, perm), r)
  {
  }

  lemma PageUnmapAnswers(s: Sys, e: nat, toid: int, va: nat, r: int)
    requires Sized(s) && Runs(s.envs, e)
    requires r == if !Finds(s.envs, toid, e, true) then -E_BAD_ENV else if !UserPage(va) then -E_INVAL else OK
    ensures Answers(s, PageUnmap(e, toid, va), r)
  {
  }

  lemma DestroyAnswers(s: Sys, e: nat, toid: int, r: int)
    requires Sized(s) && Runs(s.envs, e) && r == if Finds(s.envs, toid, e, true) then OK else -E_BAD_ENV
    ensures Answers(s, Destroy(e, toid), r)
  {
  }

  lemma ExoforkAnswers(s: Sys, e: nat, r: int)
    requires Sized(s) && Runs(s.envs, e)
    requires if NoneFree(s.envs) then r == -E_NO_FREE_ENV else r > 0 || r == -E_NO_MEM
    ensures Answers(s, Exofork(e), r)
  {
  }

  /** A call of an environment that does not run is not made. */
  lemma NotRunning(s: Sys, call: Call)
    requires Sized(s) && !call.Yield? && !call.Reap? && !Runs(s.envs, call.env)
    ensures Answers(s, call, NOT_MADE)
  {
  }

  lemma NoRoom(s: Sys, call: Call)
    requires Sized(s) && PutsAgain(s, call) && !call.Exofork? && !call.Yield?
    ensures Answers(s, call, NOT_MADE)
  {
  }

  lemma FreeListEmpty(t: EnvTable)
    requires t.Valid()
    ensures t.free == [] <==> NoneFree(t.envs[..])
  {
    if t.free != [] {
      assert t.free[0] in t.free;
    }
  }

  lemma FindsIs(t: EnvTable, envid: int, cur: nat, checkperm: bool)
    requires t.envs.Length == NENV && cur < NENV
    ensures Finds(t.envs[..], envid, cur, checkperm) == t.Resolves(envid, cur, checkperm)
  {
  }

  /** What a call that succeeds does to the state, field by field; one that fails does nothing. */
  ghost predicate Effects(s: Sys, call: Call, r: int, s': Sys)
    requires Sized(s)
  {
    if r < 0 then s' == s
    else match call
    case Recv(e, dstva) => Waiting(s.envs, e, dstva, s'.envs) && s'.views == s.views
    case TrySend(e, toid, value, srcva, perm) =>
      && e < NENV && SlotOf(toid, e) < NENV
      && var to := SlotOf(toid, e);
         var moved := srcva < UTOP && s.envs[to].dstva < UTOP;
         && Woken(s.envs, to, s.envs[e].id, value, perm, moved, s'.envs)
         && SentPage(s.views, e, PageNum(srcva), to, PageNum(s.envs[to].dstva), perm, moved, s'.views)
    case SetStatus(e, toid, status) =>
      && SlotOf(toid, e) < NENV && OthersSame(s.envs, SlotOf(toid, e), s'.envs) && s'.views == s.views
      && s'.envs[SlotOf(toid, e)] == s.envs[SlotOf(toid, e)].(status := status)
    case Exofork(e) => exists c :: 0 <= c < NENV && ChildBorn(s, e, c, r, s')
    case Destroy(e, toid) => SlotOf(toid, e) < NENV && Gone(s, SlotOf(toid, e), SlotOf(toid, e) != e, s')
    case Reap(e) => e < NENV && Gone(s, e, false, s')
    case Yield(cur) =>
      Sched.Chosen(s.envs, cur, r) && Sched.TurnedTo(s.envs, cur, r, s'.envs) && s'.views == s.views
    case _ => s'.envs == s.envs
  }

  /** The receiver maps the sender's frame with the permissions sent, at the page it named; or nothing moves. */
  predicate SentPage(v: seq<map<nat, Word>>, e: nat, src: nat, to: nat, dst: nat, perm: Flags, moved: bool,
                     v': seq<map<nat, Word>>) {
    if !moved then v' == v
    else
      && e < |v| && to < |v| && |v'| == |v| && src in v[e] && v[e][src].flags.Includes(perm)
      && (forall x :: 0 <= x < |v| && x != to ==> v'[x] == v[x])
      && v'[to].Keys == v[to].Keys + {dst} && v'[to][dst] == Word(v[e][src].frame, perm.(p := true))
      && forall page :: page in v[to] && page != dst ==> v'[to][page] == v[to][page]
  }

  /** A free slot holds a child of e that cannot run yet and maps nothing. */
  ghost predicate ChildBorn(s: Sys, e: nat, c: int, id: int, s': Sys) {
    && 0 <= c < |s.envs| == |s'.envs| == |s.views| && e < |s.envs| && s.envs[c].status == FREE
    && OthersSame(s.envs, c, s'.envs) && s'.views == s.views[c := map[]]
    && s'.envs[c].status == NOT_RUNNABLE && s'.envs[c].id == id && s'.envs[c].parent == s.envs[e].id
    && !s'.envs[c].recving && s'.envs[c].runs == 0
  }

  /** An environment is FREE and maps nothing; or, when it runs elsewhere, a zombie with its memory. */
  ghost predicate Gone(s: Sys, e: nat, elsewhere: bool, s': Sys) {
    && e < |s.envs| == |s'.envs| == |s.views| && OthersSame(s.envs, e, s'.envs)
    && (if elsewhere && s.envs[e].status == RUNNING
        then s'.envs[e] == s.envs[e].(status := DYING) && s'.views == s.views
        else
          && s'.envs[e] == s.envs[e].(status := FREE, link := s'.envs[e].link) && s'.views == s.views[e := map[]])
  }

  /** Whoever a message wakes is a candidate of every sched_yield from then on. */
  lemma WokenCanRun(envs: seq<Env>, to: nat, from: int, value: int, perm: Flags, moved: bool, envs': seq<Env>, cur: int)
    requires Woken(envs, to, from, value, perm, moved, envs') && |envs| == NENV && NIL <= cur < NENV
    ensures envs'[to].status == RUNNABLE && !Sched.NoneRunnable(envs')
    ensures exists k: nat :: k < NENV && Sched.Slot(cur, k) == to
  {
    var start := if cur == NIL then 0 else (cur + 1) % NENV;
    assert Sched.Slot(cur, if to >= start then to - start else to - start + NENV) == to;
  }

  lemma SysSized(m: PhysMem, t: EnvTable)
    requires Quiet(m, t)
    ensures Sized(SysOf(m, t))
  {
    ViewCount(m.St());
  }

  /** Who makes a system call. */
  predicate Running(t: EnvTable, e: nat)
    reads t, t.envs
    requires t.envs.Length == NENV
  {
    e < NENV && t.envs[e].status == RUNNING
  }

  // ---------------------------------------------------------------- the two IPC calls

  method DoRecv(m: PhysMem, t: EnvTable, e: nat, dstva: nat) returns (r: int, ghost evs: seq<Event>)
    requires Quiet(m, t)
    modifies t.envs
    ensures Quiet(m, t)
    ensures Leads(old(SysOf(m, t)), evs, SysOf(m, t)) && Records(Recv(e, dstva), r, evs)
    ensures Sized(old(SysOf(m, t))) && Answers(old(SysOf(m, t)), Recv(e, dstva), r)
    ensures Effects(old(SysOf(m, t)), Recv(e, dstva), r, SysOf(m, t))
    ensures r == -E_NO_MEM ==> |old(m.free)| < 2
  {
    hide Inv, Typed, EnvList, Views, Answers, Finds, Leads;
    SysSized(m, t);
    ghost var s, was := SysOf(m, t), t.envs[..];
    LeadsNowhere(s);
    evs := [];
    if !Running(t, e) {
      NotRunning(s, Recv(e, dstva));
      return NOT_MADE, evs;
    }
    ViewOf(m, t, e);
    r := SysIpcRecv(t, e, dstva);
    RecvAnswers(s, e, dstva, r);
    if r == OK {
      evs := [RecvE(e, dstva)];
      LeadsOne(s, RecvE(e, dstva));
    }
  }

  /** Does the page at va leave room in its 16-bit count? */
  method HasFew(m: PhysMem, t: EnvTable, e: nat, va: nat) returns (few: bool)
    requires Quiet(m, t) && e < NENV
    ensures few == FewMappings(EnvSpace(m.St(), e), PageNum(va), m.pages[..])
  {
    hide Inv, Typed, EnvList, Views, Space, EnvSpace;
    SpaceKeys(m.St(), e);
    if t.envs[e].status == FREE {
      NoView(m, t, e);
      ViewIsSpace(m.St(), e);
      return true;
    }
    if PageNum(va) >= UTOP_VPN {
      return true;
    }
    UvptIsKey(m, t, e, PageNum(va));
    var w := Uvpt(m.frames[..], m.pgdirs[e], PageNum(va));
    few := !Present(w) || w.frame >= m.pages.Length || m.pages[w.frame].ref + 1 < MAXREF;
  }

  method DoSend(m: PhysMem, t: EnvTable, e: nat, toid: int, value: int, srcva: nat, perm: Flags)
    returns (r: int, ghost evs: seq<Event>)
    requires Quiet(m, t)
    modifies t.envs, m`freeList, m`free, m`hold, m`limbo, m`kind, m.pages, m.frames
    ensures Quiet(m, t)
    ensures Leads(old(SysOf(m, t)), evs, SysOf(m, t)) && Records(TrySend(e, toid, value, srcva, perm), r, evs)
    ensures Sized(old(SysOf(m, t))) && Answers(old(SysOf(m, t)), TrySend(e, toid, value, srcva, perm), r)
    ensures Effects(old(SysOf(m, t)), TrySend(e, toid, value, srcva, perm), r, SysOf(m, t))
    ensures r == -E_NO_MEM ==> |old(m.free)| < 2
  {
    hide Inv, Typed, EnvList, Views, Space, EnvSpace, Undisturbed, SameData, HasTable, SetKey, Answers, Finds, Leads,
         Effects, Woken;
    SysSized(m, t);
    ghost var s, s0 := SysOf(m, t), m.St();
    LeadsNowhere(s);
    NoEffect(s, TrySend(e, toid, value, srcva, perm));
    evs := [];
    if !Running(t, e) {
      NotRunning(s, TrySend(e, toid, value, srcva, perm));
      return NOT_MADE, evs;
    }
    var few := HasFew(m, t, e, srcva);
    if !few {
      ViewIsSpace(s0, e);
      NoRoom(s, TrySend(e, toid, value, srcva, perm));
      return NOT_MADE, evs;
    }
    ghost var to := SlotOf(toid, e);
    ghost var ev := SendE(to, e, value, srcva, perm);
    ViewOf(m, t, e);
    FindsIs(t, toid, e, false);
    r := SysIpcTrySend(m, t, e, toid, value, srcva, perm);
    SendAnswers(s, e, toid, value, srcva, perm, r);
    ViewCount(m.St());
    if r == OK && Moves(s, ev) {
      KeySet(Views(s0), to, PageNum(s.envs[to].dstva), Word(s.views[e][PageNum(srcva)].frame, perm.(p := true)),
          Views(m.St()));
    } else {
      FailedViews(s0, old(m.pages[..]), old(m.freeList), old(m.free), m.St(), m.pages[..]);
    }
    if r == OK {
      evs := [ev];
      LeadsOne(s, ev);
      SendEffects(s, e, toid, value, srcva, perm, SysOf(m, t));
    }
  }

  lemma NoEffect(s: Sys, call: Call)
    requires Sized(s)
    ensures forall r :: r < 0 ==> Effects(s, call, r, s)
  {
  }

  lemma SendEffects(s: Sys, e: nat, toid: int, value: int, srcva: nat, perm: Flags, s': Sys)
    requires Sized(s) && CanDo(s, SendE(SlotOf(toid, e), e, value, srcva, perm))
    requires s' == Do(s, SendE(SlotOf(toid, e), e, value, srcva, perm))
    ensures Effects(s, TrySend(e, toid, value, srcva, perm), OK, s')
  {
    var to := SlotOf(toid, e);
    DeliveredWakes(s.envs, to, s.envs[e].id, value, perm, srcva < UTOP && s.envs[to].dstva < UTOP);
    hide Woken;
  }

  lemma KeySet(v: seq<map<nat, Word>>, e: nat, page: nat, w: Word, v': seq<map<nat, Word>>)
    requires SetKey(v, e, page, w, v')
    ensures e < |v| && v' == SetIn(v, e, page, w)
  {
  }

  lemma FailedViews(s: Mem, pages: seq<PageInfo>, head: int, free: seq<nat>, s': Mem, pages': seq<PageInfo>)
    requires Calm(s, pages, head, free) && Undisturbed(s, pages, free, s', pages') && s'.roots == s.roots
    ensures Views(s') == Views(s)
  {
    hide Inv, Typed, Views, SameSpaces, SameData;
    InvTyped(s, pages, head, free, multiset{}, {});
    SameViews(s, s');
  }

  // ---------------------------------------------------------------- everything else the kernel does

  method DoExofork(m: PhysMem, t: EnvTable, e: nat) returns (r: int, ghost evs: seq<Event>)
    requires Quiet(m, t)
    modifies t, t.envs, m`freeList, m`free, m`hold, m`limbo, m`kind, m.pages, m.frames, m.pgdirs
    ensures Quiet(m, t)
    ensures Leads(old(SysOf(m, t)), evs, SysOf(m, t)) && Records(Exofork(e), r, evs)
    ensures Sized(old(SysOf(m, t))) && Answers(old(SysOf(m, t)), Exofork(e), r)
    ensures Effects(old(SysOf(m, t)), Exofork(e), r, SysOf(m, t))
    ensures r == -E_NO_MEM ==> |old(m.free)| < 2
  {
    hide Inv, Typed, EnvList, Views, Space, SameData, KthId, Answers, Finds, Leads;
    SysSized(m, t);
    ghost var s := SysOf(m, t);
    LeadsNowhere(s);
    evs := [];
    if !Running(t, e) {
      NotRunning(s, Exofork(e));
      return NOT_MADE, evs;
    }
    ViewOf(m, t, e);
    EnvListHead(t.envs[..], t.freeList, t.free);
    FreeListEmpty(t);
    r := SysExofork(m, t, e);
    if r >= 0 {
      KthIdFormula(t.allocs[old(t.free)[0]], old(t.free)[0]);
    }
    ExoforkAnswers(s, e, r);
    if old(t.free) != [] && old(m.free) != [] {
      ghost var c := old(t.free)[0];
      ghost var ev, now := AllocE(c, r, t.envs[e].id), Born(old(t.envs[c]), r, t.envs[e].id).(status := NOT_RUNNABLE);
      evs := [ev, EnvE(c, now)];
      LeadsTwo(s, ev, EnvE(c, now));
      assert Do(Do(s, ev), EnvE(c, now)) == SysOf(m, t);
      assert ChildBorn(s, e, c, r, SysOf(m, t));
    }
  }

  method DoSetStatus(m: PhysMem, t: EnvTable, e: nat, toid: int, status: Status) returns (r: int, ghost evs: seq<Event>)
    requires Quiet(m, t)
    modifies t.envs
    ensures Quiet(m, t)
    ensures Leads(old(SysOf(m, t)), evs, SysOf(m, t)) && Records(SetStatus(e, toid, status), r, evs)
    ensures Sized(old(SysOf(m, t))) && Answers(old(SysOf(m, t)), SetStatus(e, toid, status), r)
    ensures Effects(old(SysOf(m, t)), SetStatus(e, toid, status), r, SysOf(m, t))
    ensures r == -E_NO_MEM ==> |old(m.free)| < 2
  {
    hide Inv, Typed, EnvList, Views, Answers, Finds, Leads;
    SysSized(m, t);
    ghost var s := SysOf(m, t);
    LeadsNowhere(s);
    evs := [];
    if !Running(t, e) {
      NotRunning(s, SetStatus(e, toid, status));
      return NOT_MADE, evs;
    }
    ViewOf(m, t, e);
    FindsIs(t, toid, e, true);
    r := SysEnvSetStatus(t, e, toid, status);
    SetStatusAnswers(s, e, toid, status, r);
    if r == OK {
      ghost var ev := EnvE(SlotOf(toid, e), s.envs[SlotOf(toid, e)].(status := status));
      evs := [ev];
      LeadsOne(s, ev);
    }
  }

  method DoPageAlloc(m: PhysMem, t: EnvTable, e: nat, toid: int, va: nat, perm: Flags)
    returns (r: int, ghost evs: seq<Event>)
    requires Quiet(m, t)
    modifies m`freeList, m`free, m`hold, m`limbo, m`kind, m.pages, m.frames
    ensures Quiet(m, t)
    ensures Leads(old(SysOf(m, t)), evs, SysOf(m, t)) && Records(PageAlloc(e, toid, va, perm), r, evs)
    ensures Sized(old(SysOf(m, t))) && Answers(old(SysOf(m, t)), PageAlloc(e, toid, va, perm), r)
    ensures Effects(old(SysOf(m, t)), PageAlloc(e, toid, va, perm), r, SysOf(m, t))
    ensures r == -E_NO_MEM ==> |old(m.free)| < 2
  {
    hide Inv, Typed, EnvList, Views, Space, Undisturbed, SameData, HasTable, SetKey, Answers, Finds, Leads;
    SysSized(m, t);
    ghost var s, s0 := SysOf(m, t), m.St();
    LeadsNowhere(s);
    evs := [];
    if !Running(t, e) {
      NotRunning(s, PageAlloc(e, toid, va, perm));
      return NOT_MADE, evs;
    }
    ViewOf(m, t, e);
    FindsIs(t, toid, e, true);
    r := SysPageAlloc(m, t, e, toid, va, perm);
    PageAllocAnswers(s, e, toid, va, perm, r);
    if r == OK {
      evs := Mapped(s, m, t, SlotOf(toid, e), PageNum(va), Word(old(m.free)[0], perm));
    } else {
      FailedViews(s0, old(m.pages[..]), old(m.freeList), old(m.free), m.St(), m.pages[..]);
    }
  }

  /** One key set in the address spaces is one event. */
  ghost method Mapped(s: Sys, m: PhysMem, t: EnvTable, e: nat, page: nat, w: Word) returns (evs: seq<Event>)
    requires t.envs[..] == s.envs && |s.views| == |s.envs| && SetKey(s.views, e, page, w, Views(m.St()))
    ensures Leads(s, evs, SysOf(m, t)) && evs == [MapE(e, page, w)]
  {
    hide Views;
    evs := [MapE(e, page, w)];
    LeadsOne(s, MapE(e, page, w));
  }

  method DoPageMap(m: PhysMem, t: EnvTable, e: nat, srcid: int, srcva: nat, dstid: int, dstva: nat, perm: Flags)
    returns (r: int, ghost evs: seq<Event>)
    requires Quiet(m, t)
    modifies m`freeList, m`free, m`hold, m`limbo, m`kind, m.pages, m.frames
    ensures Quiet(m, t)
    ensures Leads(old(SysOf(m, t)), evs, SysOf(m, t)) && Records(PageMap(e, srcid, srcva, dstid, dstva, perm), r, evs)
    ensures Sized(old(SysOf(m, t))) && Answers(old(SysOf(m, t)), PageMap(e, srcid, srcva, dstid, dstva, perm), r)
    ensures Effects(old(SysOf(m, t)), PageMap(e, srcid, srcva, dstid, dstva, perm), r, SysOf(m, t))
    ensures r == -E_NO_MEM ==> |old(m.free)| < 2
  {
    hide Inv, Typed, EnvList, Views, Space, EnvSpace, Undisturbed, SameData, HasTable, SetKey, MapArgs, Answers, Finds,
         Leads;
    SysSized(m, t);
    ghost var s, s0 := SysOf(m, t), m.St();
    LeadsNowhere(s);
    evs := [];
    if !Running(t, e) {
      NotRunning(s, PageMap(e, srcid, srcva, dstid, dstva, perm));
      return NOT_MADE, evs;
    }
    ViewOf(m, t, e);
    var few := HasFew(m, t, SlotOf(srcid, e), srcva);
    if !few {
      ViewIsSpace(s0, SlotOf(srcid, e));
      NoRoom(s, PageMap(e, srcid, srcva, dstid, dstva, perm));
      return NOT_MADE, evs;
    }
    FindsIs(t, srcid, e, true);
    FindsIs(t, dstid, e, true);
    ViewIsSpace(s0, SlotOf(srcid, e));
    r := SysPageMap(m, t, e, srcid, srcva, dstid, dstva, perm);
    PageMapAnswers(s, e, srcid, srcva, dstid, dstva, perm, r);
    if r == OK {
      ghost var frame := EnvSpace(s0, SlotOf(srcid, e))[PageNum(srcva)].frame;
      evs := Mapped(s, m, t, SlotOf(dstid, e), PageNum(dstva), Word(frame, perm));
    } else {
      FailedViews(s0, old(m.pages[..]), old(m.freeList), old(m.free), m.St(), m.pages[..]);
    }
  }

  method DoPageUnmap(m: PhysMem, t: EnvTable, e: nat, toid: int, va: nat) returns (r: int, ghost evs: seq<Event>)
    requires Quiet(m, t)
    modifies m`freeList, m`free, m`hold, m`limbo, m`kind, m.pages, m.frames
    ensures Quiet(m, t)
    ensures Leads(old(SysOf(m, t)), evs, SysOf(m, t)) && Records(PageUnmap(e, toid, va), r, evs)
    ensures Sized(old(SysOf(m, t))) && Answers(old(SysOf(m, t)), PageUnmap(e, toid, va), r)
    ensures Effects(old(SysOf(m, t)), PageUnmap(e, toid, va), r, SysOf(m, t))
    ensures r == -E_NO_MEM ==> |old(m.free)| < 2
  {
    hide Inv, Typed, EnvList, Views, Space, EnvSpace, SameData, HasTable, Answers, Finds, Leads;
    SysSized(m, t);
    ghost var s, s0 := SysOf(m, t), m.St();
    LeadsNowhere(s);
    evs := [];
    if !Running(t, e) {
      NotRunning(s, PageUnmap(e, toid, va));
      return NOT_MADE, evs;
    }
    ViewOf(m, t, e);
    FindsIs(t, toid, e, true);
    r := SysPageUnmap(m, t, e, toid, va);
    PageUnmapAnswers(s, e, toid, va, r);
    if r == OK {
      ghost var ev := UnmapE(SlotOf(toid, e), PageNum(va));
      ViewIsSpace(s0, SlotOf(toid, e));
      evs := [ev];
      LeadsOne(s, ev);
    }
  }

  /** env_free. */
  method Free(m: PhysMem, t: EnvTable, e: nat) returns (ghost evs: seq<Event>)
    requires Quiet(m, t) && e < NENV && t.envs[e].status != FREE
    modifies t, t.envs, m`freeList, m`free, m`hold, m`limbo, m`kind, m.pages, m.frames, m.pgdirs
    ensures Quiet(m, t) && t.envs[e].status == FREE
    ensures Gone(old(SysOf(m, t)), e, false, SysOf(m, t))
    ensures Leads(old(SysOf(m, t)), evs, SysOf(m, t)) && forall i :: 0 <= i < |evs| ==> evs[i].EnvE? || evs[i].EmptyE?
  {
    hide Inv, Typed, EnvList, Views, EnvVm.Freed, SameData;
    ghost var s, s0 := SysOf(m, t), m.St();
    InvTyped(s0, m.pages[..], m.freeList, m.free, m.hold, m.limbo);
    ViewOf(m, t, e);
    t.EnvFree(m, e);
    ExitViews(s0, m.St(), e);
    ghost var gone := EnvE(e, s.envs[e].(status := FREE, link := old(t.freeList)));
    evs := [gone, EmptyE(e)];
    LeadsTwo(s, gone, EmptyE(e));
  }

  /** sys_env_destroy: an environment that runs on another CPU becomes a zombie. */
  method DoDestroy(m: PhysMem, t: EnvTable, e: nat, toid: int) returns (r: int, ghost evs: seq<Event>)
    requires Quiet(m, t)
    modifies t, t.envs, m`freeList, m`free, m`hold, m`limbo, m`kind, m.pages, m.frames, m.pgdirs
    ensures Quiet(m, t)
    ensures Leads(old(SysOf(m, t)), evs, SysOf(m, t)) && Records(Destroy(e, toid), r, evs)
    ensures Sized(old(SysOf(m, t))) && Answers(old(SysOf(m, t)), Destroy(e, toid), r)
    ensures Effects(old(SysOf(m, t)), Destroy(e, toid), r, SysOf(m, t))
    ensures r == -E_NO_MEM ==> |old(m.free)| < 2
  {
    hide Inv, Typed, EnvList, Views, Answers, Finds, Leads, Gone;
    SysSized(m, t);
    ghost var s := SysOf(m, t);
    LeadsNowhere(s);
    evs := [];
    if !Running(t, e) {
      NotRunning(s, Destroy(e, toid));
      return NOT_MADE, evs;
    }
    ViewOf(m, t, e);
    var d;
    FindsIs(t, toid, e, true);
    r, d := t.Envid2Env(toid, e, true);
    DestroyAnswers(s, e, toid, r);
    if r < 0 {
      return;
    }
    if t.envs[d].status == RUNNING && d != e {
      PutEnv(t, d, t.envs[d].(status := DYING));
      ghost var ev := EnvE(d, s.envs[d].(status := DYING));
      evs := [ev];
      LeadsOne(s, ev);
      ZombieLeft(s, d, SysOf(m, t));
    } else {
      evs := Free(m, t, d);
      GoneHere(s, d, d != e, SysOf(m, t));
    }
  }

  lemma ZombieLeft(s: Sys, e: nat, s': Sys)
    requires e < |s.envs| == |s.views| && s.envs[e].status == RUNNING
    requires s' == s.(envs := s.envs[e := s.envs[e].(status := DYING)])
    ensures Gone(s, e, true, s')
  {
  }

  lemma GoneHere(s: Sys, e: nat, elsewhere: bool, s': Sys)
    requires Gone(s, e, false, s') && (elsewhere ==> s.envs[e].status != RUNNING)
    ensures Gone(s, e, elsewhere, s')
  {
  }

  /** trap(): a zombie that enters the kernel is freed there. */
  method DoReap(m: PhysMem, t: EnvTable, e: nat) returns (r: int, ghost evs: seq<Event>)
    requires Quiet(m, t)
    modifies t, t.envs, m`freeList, m`free, m`hold, m`limbo, m`kind, m.pages, m.frames, m.pgdirs
    ensures Quiet(m, t)
    ensures Leads(old(SysOf(m, t)), evs, SysOf(m, t)) && Records(Reap(e), r, evs)
    ensures Sized(old(SysOf(m, t))) && Answers(old(SysOf(m, t)), Reap(e), r)
    ensures Effects(old(SysOf(m, t)), Reap(e), r, SysOf(m, t))
    ensures r == -E_NO_MEM ==> |old(m.free)| < 2
  {
    hide Inv, Typed, EnvList, Views, Leads, Gone;
    SysSized(m, t);
    LeadsNowhere(SysOf(m, t));
    if e >= NENV || t.envs[e].status != DYING {
      return NOT_MADE, [];
    }
    evs := Free(m, t, e);
    r := OK;
  }

  method DoYield(m: PhysMem, t: EnvTable, cur: int) returns (r: int, ghost evs: seq<Event>)
    requires Quiet(m, t)
    modifies t.envs
    ensures Quiet(m, t)
    ensures Leads(old(SysOf(m, t)), evs, SysOf(m, t)) && Records(Yield(cur), r, evs)
    ensures Sized(old(SysOf(m, t))) && Answers(old(SysOf(m, t)), Yield(cur), r)
    ensures Effects(old(SysOf(m, t)), Yield(cur), r, SysOf(m, t))
    ensures r == -E_NO_MEM ==> |old(m.free)| < 2
  {
    hide Inv, Typed, EnvList, Views, Sched.NoneRunnable, Leads;
    SysSized(m, t);
    ghost var s := SysOf(m, t);
    LeadsNowhere(s);
    evs := [];
    if cur < NIL || cur >= NENV {
      return NOT_MADE, evs;
    }
    ViewCount(m.St());
    r := Sched.SchedYield(t, cur);
    if r != NIL {
      evs := SwitchEvents(s, cur, r);
      SwitchLeads(s, cur, r);
    }
  }

  /** env_run: the environment that was running becomes RUNNABLE, the chosen one RUNNING. */
  function SwitchEvents(s: Sys, cur: int, e: nat): seq<Event>
    requires NIL <= cur < |s.envs| && e < |s.envs|
  {
    var now := Sched.Switched(s.envs, cur, e)[e];
    if cur != NIL && s.envs[cur].status == RUNNING
    then [EnvE(cur, s.envs[cur].(status := RUNNABLE)), EnvE(e, now)]
    else [EnvE(e, now)]
  }

  lemma SwitchLeads(s: Sys, cur: int, e: nat)
    requires NIL <= cur < |s.envs| == |s.views| && e < |s.envs| && s.envs[e].status != FREE
    ensures Leads(s, SwitchEvents(s, cur, e), s.(envs := Sched.Switched(s.envs, cur, e)))
  {
    var now := Sched.Switched(s.envs, cur, e)[e];
    if cur != NIL && s.envs[cur].status == RUNNING {
      LeadsTwo(s, EnvE(cur, s.envs[cur].(status := RUNNABLE)), EnvE(e, now));
    } else {
      LeadsOne(s, EnvE(e, now));
    }
  }

  // ---------------------------------------------------------------- any list of calls

  method Perform(m: PhysMem, t: EnvTable, call: Call) returns (r: int, ghost evs: seq<Event>)
    requires Quiet(m, t)
    modifies t, t.envs, m`freeList, m`free, m`hold, m`limbo, m`kind, m.pages, m.frames, m.pgdirs
    ensures Quiet(m, t)
    ensures Leads(old(SysOf(m, t)), evs, SysOf(m, t)) && Records(call, r, evs)
    ensures Step(old(SysOf(m, t)), call, r, SysOf(m, t))
    ensures r == -E_NO_MEM ==> |old(m.free)| < 2
  {
    hide Quiet, Leads, Records, SysOf, Answers, Effects;
    match call
    case Recv(e, dstva) => r, evs := DoRecv(m, t, e, dstva);
    case TrySend(e, toid, value, srcva, perm) => r, evs := DoSend(m, t, e, toid, value, srcva, perm);
    case Exofork(e) => r, evs := DoExofork(m, t, e);
    case SetStatus(e, toid, status) => r, evs := DoSetStatus(m, t, e, toid, status);
    case PageAlloc(e, toid, va, perm) => r, evs := DoPageAlloc(m, t, e, toid, va, perm);
    case PageMap(e, srcid, srcva, dstid, dstva, perm) => r, evs := DoPageMap(m, t, e, srcid, srcva, dstid, dstva, perm);
    case PageUnmap(e, toid, va) => r, evs := DoPageUnmap(m, t, e, toid, va);
    case Destroy(e, toid) => r, evs := DoDestroy(m, t, e, toid);
    case Reap(e) => r, evs := DoReap(m, t, e);
    case Yield(cur) => r, evs := DoYield(m, t, cur);
  }

  /** One list of events per call, in order. */
  function {:induction false} Joined(per: seq<seq<Event>>): seq<Event> {
    if per == [] then [] else Joined(per[..|per|-1]) + per[|per|-1]
  }

  /** Any list of calls is a history: it is made of what the calls record, and passes through the states
      between the calls.  Each call is answered as the source's tests of its state say, and does to the state
      what a call of its kind does.  Whatever holds of every history (SendAnswersRecv, AnsweredOnce,
      NoOverwrite, MessageStays, PageStays) holds of it. */
  method Execute(m: PhysMem, t: EnvTable, calls: seq<Call>)
    returns (rs: seq<int>, ghost per: seq<seq<Event>>, ghost states: seq<Sys>)
    requires Quiet(m, t) && forall e :: 0 <= e < NENV ==> !t.envs[e].recving
    modifies t, t.envs, m`freeList, m`free, m`hold, m`limbo, m`kind, m.pages, m.frames, m.pgdirs
    ensures Quiet(m, t) && |rs| == |per| == |calls| && |states| == |calls| + 1
    ensures states[0] == old(SysOf(m, t)) && states[|calls|] == SysOf(m, t)
    ensures forall i :: 0 <= i < |calls| ==> Records(calls[i], rs[i], per[i])
    ensures forall i :: 0 <= i < |calls| ==> Step(states[i], calls[i], rs[i], states[i+1])
    ensures forall i :: 0 <= i <= |calls| ==> Leads(old(SysOf(m, t)), Joined(per[..i]), states[i])
    ensures Run(old(SysOf(m, t)), Joined(per)) && After(old(SysOf(m, t)), Joined(per)) == SysOf(m, t)
  {
    hide Quiet, Leads, Records, Step, SysOf, Possible, After, Joined, Made;
    ghost var s := SysOf(m, t);
    rs, per, states := [], [], [s];
    Fresh(m, t);
    MadeNone(s, calls);
    for i := 0 to |calls|
      invariant Quiet(m, t) && |rs| == i && Made(s, calls, rs, per, states)
      invariant |states| == i + 1 && states[i] == SysOf(m, t)
    {
      var r;
      ghost var evs;
      r, evs := Perform(m, t, calls[i]);
      MadeNext(s, calls, rs, per, states, r, evs, SysOf(m, t));
      rs, per, states := rs + [r], per + [evs], states + [SysOf(m, t)];
    }
    MadeAll(s, calls, rs, per, states);
  }

  /** The first |rs| calls have been made. */
  ghost predicate Made(s: Sys, calls: seq<Call>, rs: seq<int>, per: seq<seq<Event>>, states: seq<Sys>) {
    && |rs| == |per| <= |calls| && |states| == |rs| + 1 && states[0] == s
    && (forall i :: 0 <= i < |rs| ==> Records(calls[i], rs[i], per[i]))
    && (forall i :: 0 <= i < |rs| ==> Step(states[i], calls[i], rs[i], states[i+1]))
    && (forall i :: 0 <= i <= |rs| ==> Leads(s, Joined(per[..i]), states[i]))
  }

  lemma MadeNone(s: Sys, calls: seq<Call>)
    ensures Made(s, calls, [], [], [s])
  {
    LeadsNowhere(s);
  }

  lemma MadeNext(s: Sys, calls: seq<Call>, rs: seq<int>, per: seq<seq<Event>>, states: seq<Sys>, r: int,
                 evs: seq<Event>, s': Sys)
    requires Made(s, calls, rs, per, states) && |rs| < |calls| && Records(calls[|rs|], r, evs)
    requires Step(states[|rs|], calls[|rs|], r, s') && Leads(states[|rs|], evs, s')
    ensures Made(s, calls, rs + [r], per + [evs], states + [s'])
  {
    hide Leads, Records, Step;
    var n, now, after := |rs|, per + [evs], states + [s'];
    assert per[..n] == per && now[..n+1] == now && now[..|now|-1] == per;
    LeadsOn(s, Joined(per), states[n], evs, s');
    assert Joined(now) == Joined(per) + evs;
    hide Joined;
    forall i | 0 <= i <= n ensures Records(calls[i], (rs + [r])[i], now[i]) {
      assert i < n ==> Records(calls[i], rs[i], per[i]);
    }
    forall i | 0 <= i <= n ensures Step(after[i], calls[i], (rs + [r])[i], after[i+1]) {
      assert i < n ==> Step(states[i], calls[i], rs[i], states[i+1]);
    }
    forall i | 0 <= i <= n + 1 ensures Leads(s, Joined(now[..i]), after[i]) {
      if i <= n {
        assert now[..i] == per[..i] && after[i] == states[i];
      }
    }
  }

  lemma MadeAll(s: Sys, calls: seq<Call>, rs: seq<int>, per: seq<seq<Event>>, states: seq<Sys>)
    requires Made(s, calls, rs, per, states) && |rs| == |calls|
    ensures |rs| == |per| == |calls| && |states| == |calls| + 1 && states[0] == s
    ensures forall i :: 0 <= i < |calls| ==> Records(calls[i], rs[i], per[i])
    ensures forall i :: 0 <= i < |calls| ==> Step(states[i], calls[i], rs[i], states[i+1])
    ensures forall i :: 0 <= i <= |calls| ==> Leads(s, Joined(per[..i]), states[i])
    ensures Possible(s, Joined(per)) && After(s, Joined(per)) == states[|calls|]
  {
    assert per[..|calls|] == per;
    LeadsIs(s, Joined(per), states[|calls|]);
  }

  ghost predicate Step(s: Sys, call: Call, r: int, s': Sys) {
    Sized(s) && Answers(s, call, r) && Effects(s, call, r, s')
  }

  /** After each successful send its receiver can run, whichever environment the scheduler starts from. */
  lemma ReceiverCanRun(s: Sys, call: Call, s': Sys, cur: int)
    requires Step(s, call, OK, s') && call.TrySend? && NIL <= cur < NENV
    ensures SlotOf(call.toid, call.env) < |s'.envs| && s'.envs[SlotOf(call.toid, call.env)].status == RUNNABLE
    ensures !Sched.NoneRunnable(s'.envs)
    ensures exists k: nat :: k < NENV && Sched.Slot(cur, k) == SlotOf(call.toid, call.env)
  {
    var to := SlotOf(call.toid, call.env);
    var moved := call.srcva < UTOP && s.envs[to].dstva < UTOP;
    WokenCanRun(s.envs, to, s.envs[call.env].id, call.value, call.perm, moved, s'.envs, cur);
  }

  lemma LeadsIs(s: Sys, evs: seq<Event>, s': Sys)
    requires Leads(s, evs, s')
    ensures Possible(s, evs) && After(s, evs) == s'
  {
  }

  lemma Fresh(m: PhysMem, t: EnvTable)
    requires Quiet(m, t) && forall e :: 0 <= e < NENV ==> !t.envs[e].recving
    ensures var s := SysOf(m, t); |s.views| == |s.envs| && forall e :: 0 <= e < |s.envs| ==> !s.envs[e].recving
  {
  }

  // ---------------------------------------------------------------- from events back to calls

  /** Where the events of call i start. */
  function Start(per: seq<seq<Event>>, i: nat): nat
    requires i <= |per|
  {
    |Joined(per[..i])|
  }

  lemma {:induction false} JoinedAt(per: seq<seq<Event>>, i: nat, k: nat)
    requires i < |per|
    ensures Start(per, i + 1) == Start(per, i) + |per[i]| <= |Joined(per)|
    ensures k < |per[i]| ==> Joined(per)[Start(per, i) + k] == per[i][k]
    decreases |per|
  {
    var last := |per| - 1;
    var front := per[..last];
    assert per[..i+1][..i] == per[..i];
    assert Joined(per) == Joined(front) + per[last];
    if i < last {
      JoinedAt(front, i, k);
      assert front[..i] == per[..i] && front[..i+1] == per[..i+1] && front[i] == per[i];
      assert |Joined(front)| <= |Joined(per)|;
    } else {
      assert per[..i+1] == per;
    }
  }

  /** The call that recorded the event at position p. */
  lemma {:induction false} CallOf(per: seq<seq<Event>>, p: nat) returns (i: nat)
    requires p < |Joined(per)|
    ensures i < |per| && Start(per, i) <= p < Start(per, i) + |per[i]| == Start(per, i + 1)
    ensures Joined(per)[p] == per[i][p - Start(per, i)]
    decreases |per|
  {
    var last := |per| - 1;
    var front := per[..last];
    if p < |Joined(front)| {
      i := CallOf(front, p);
      assert front[..i] == per[..i] && front[..i+1] == per[..i+1];
    } else {
      i := last;
      assert per[..i+1] == per;
    }
  }

  lemma {:induction false} StartsInOrder(per: seq<seq<Event>>, i: nat, j: nat)
    requires i <= j <= |per|
    ensures Start(per, i) <= Start(per, j)
    decreases j - i
  {
    if i < j {
      JoinedAt(per, i, 0);
      StartsInOrder(per, i + 1, j);
    }
  }

  /** A successful recv of environment e. */
  predicate Asks(call: Call, r: int, e: nat) { call.Recv? && r == OK && call.env == e }

  /** A successful try_send to environment e. */
  predicate Sends(call: Call, r: int, e: nat) { call.TrySend? && r == OK && SlotOf(call.toid, call.env) == e }

  lemma AskOrSend(call: Call, r: int, evs: seq<Event>, e: nat)
    requires Records(call, r, evs)
    ensures Asks(call, r, e) || Sends(call, r, e) ==> |evs| == 1 && Touches(evs[0], e)
    ensures Sends(call, r, e) ==> evs[0].SendE? && evs[0].to == e
    ensures forall k :: 0 <= k < |evs| && evs[k].RecvE? && evs[k].env == e ==> Asks(call, r, e)
  {
  }

  /** In any list of calls, each try_send that succeeds answers an earlier recv of its receiver that succeeded,
      and between the two no other recv of the receiver or try_send to it did. */
  lemma EachSendAnswersARecv(s: Sys, calls: seq<Call>, rs: seq<int>, per: seq<seq<Event>>, i: nat, e: nat)
    returns (j: nat)
    requires |calls| == |rs| == |per| && i < |calls| && Run(s, Joined(per))
    requires forall k :: 0 <= k < |calls| ==> Records(calls[k], rs[k], per[k])
    requires Sends(calls[i], rs[i], e)
    ensures j < i && Asks(calls[j], rs[j], e)
    ensures forall k :: j < k < i ==> !Asks(calls[k], rs[k], e) && !Sends(calls[k], rs[k], e)
  {
    hide Records, Run;
    AskOrSend(calls[i], rs[i], per[i], e);
    JoinedAt(per, i, 0);
    var events, p := Joined(per), Start(per, i);
    SendAnswersRecv(s, events, p);
    var q := Answered(events, p);
    j := CallOf(per, q);
    AskOrSend(calls[j], rs[j], per[j], e);
    if i <= j {
      StartsInOrder(per, i, j);
      assert false;
    }
    forall k | j < k < i ensures !Asks(calls[k], rs[k], e) && !Sends(calls[k], rs[k], e) {
      AskOrSend(calls[k], rs[k], per[k], e);
      JoinedAt(per, k, 0);
      StartsInOrder(per, j + 1, k);
      StartsInOrder(per, k + 1, i);
    }
  }
}

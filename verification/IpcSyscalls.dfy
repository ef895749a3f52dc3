/** kern/syscall.c: environment creation, status changes and the IPC calls. */
module IpcSyscalls {
  import opened Mmu
  import opened PageRefs
  import opened PageCounts
  import opened Spaces
  import opened Pmap
  import opened EnvIds
  import opened Envs
  import opened Syscalls
  import EnvVm

  lemma EnvListKeep(envs: seq<Env>, head: int, free: seq<nat>, e: nat, ne: Env)
    requires EnvList(envs, head, free) && e < |envs| && envs[e].status != FREE && ne.status != FREE
    ensures EnvList(envs[e := ne], head, free)
  {
    assert e !in free;
  }

  /** Overwriting the record of an environment in use with another one in use. */
  method PutEnv(t: EnvTable, e: nat, ne: Env)
    requires t.Valid() && e < NENV && t.envs[e].status != FREE && ne.status != FREE && ne.id == t.envs[e].id
    requires ne.recving && ne.dstva < UTOP ==> ne.dstva % PGSIZE == 0
    modifies t.envs
    ensures t.Valid() && t.envs[..] == old(t.envs[..])[e := ne]
  {
    hide EnvList;
    EnvListKeep(t.envs[..], t.freeList, t.free, e, ne);
    t.envs[e] := ne;
    assert t.envs[..] == old(t.envs[..])[e := ne];
  }

  method SysExofork(m: PhysMem, t: EnvTable, cur: nat) returns (r: int)
    requires Quiet(m, t) && cur < NENV && t.envs[cur].status != FREE
    modifies t, t.envs, m`freeList, m`free, m`hold, m`limbo, m`kind, m.pages, m.frames, m.pgdirs
    ensures Quiet(m, t)
    ensures old(t.free) == [] ==> r == -E_NO_FREE_ENV
    ensures old(t.free) != [] && old(m.free) == [] ==> r == -E_NO_MEM
    ensures r < 0 ==> t.envs[..] == old(t.envs[..]) && m.St() == old(m.St())
    ensures old(t.free) != [] && old(m.free) != [] ==>
              var e := old(t.free)[0];
              && e < NENV && r == t.envs[e].id == KthId(t.allocs[e], e)
              && t.allocs == old(t.allocs)[e := old(t.allocs[e]) + 1]
              && t.envs[..] == old(t.envs[..])[e := Born(old(t.envs[e]), r, t.envs[cur].id).(status := NOT_RUNNABLE)]
              && t.envs[e].status == NOT_RUNNABLE && t.envs[e].parent == t.envs[cur].id
              && !t.envs[e].recving && t.envs[e].runs == 0
              && e < |old(Views(m.St()))| && Views(m.St()) == old(Views(m.St()))[e := map[]]
              && SameData(old(m.St()), m.St(), {old(m.free)[0]}) && m.free == old(m.free)[1..]
  {
    hide Inv, Typed, EnvList, Views, SameData, SameSpaces, Space;
    ghost var s := m.St();
    InvTyped(s, m.pages[..], m.freeList, m.free, m.hold, m.limbo);
    EnvListHead(t.envs[..], t.freeList, t.free);
    var e;
    r, e := t.EnvAlloc(m, t.envs[cur].id);
    if r < 0 {
      return;
    }
    NewView(s, m.St(), e, old(m.free)[0]);
    PutEnv(t, e, t.envs[e].(status := NOT_RUNNABLE));
    KthIdFormula(t.allocs[e], e);
    r := t.envs[e].id;
  }

  lemma NewView(s: Mem, s': Mem, e: nat, d: nat)
    requires Typed(s) && e < |s.roots| && s.roots[e] == 0 && s'.roots == s.roots[e := d]
    requires SameSpaces(s, s') && d < |s'.frames| && Space(s'.frames, d) == map[]
    ensures |Views(s)| == |s.roots| && Views(s') == Views(s)[e := map[]]
  {
    hide Space;
    forall x | 0 <= x < |s.roots| && x != e
      ensures Views(s')[x] == Views(s)[x]
    {
      assert s.roots[x] != 0 ==> s.kind[s.roots[x]].Dir?;
    }
  }

  method SysEnvSetStatus(t: EnvTable, cur: nat, envid: int, status: Status) returns (r: int)
    requires t.Valid() && cur < NENV && t.envs[cur].status != FREE
    modifies t.envs
    ensures t.Valid()
    ensures r == if !old(t.Resolves(envid, cur, true)) then -E_BAD_ENV
                 else if status != RUNNABLE && status != NOT_RUNNABLE then -E_INVAL else OK
    ensures r != OK ==> t.envs[..] == old(t.envs[..])
    ensures r == OK ==>
              t.envs[..] == old(t.envs[..])[SlotOf(envid, cur) := old(t.envs[SlotOf(envid, cur)]).(status := status)]
  {
    var e;
    r, e := t.Envid2Env(envid, cur, true);
    if r < 0 {
      return;
    }
    if status != RUNNABLE && status != NOT_RUNNABLE {
      return -E_INVAL;
    }
    PutEnv(t, e, t.envs[e].(status := status));
  }

  /** The page half of sys_ipc_try_send: the receiver gets a second mapping of the sender's page, if it
      asked for one, with exactly the permissions named, which the sender's own entry must include. */
  method SendPage(m: PhysMem, se: nat, srcva: nat, re: nat, dstva: nat, perm: Flags) returns (r: int)
    requires m.Valid() && m.hold == multiset{} && m.limbo == {}
    requires se < m.pgdirs.Length && re < m.pgdirs.Length && |m.kind| == m.frames.Length
    requires 0 != m.pgdirs[se] < m.frames.Length && m.kind[m.pgdirs[se]].Dir?
    requires 0 != m.pgdirs[re] < m.frames.Length && m.kind[m.pgdirs[re]].Dir?
    requires UserPage(srcva) && (dstva < UTOP ==> dstva % PGSIZE == 0)
    requires FewMappings(EnvSpace(m.St(), se), PageNum(srcva), m.pages[..])
    modifies m`freeList, m`free, m`hold, m`limbo, m`kind, m.pages, m.frames
    ensures m.Valid() && m.hold == multiset{} && m.limbo == {}
    ensures r == OK || r == -E_INVAL || r == -E_NO_MEM
    ensures r == -E_INVAL <==> !(PageNum(srcva) in old(EnvSpace(m.St(), se)) &&
                                 old(EnvSpace(m.St(), se))[PageNum(srcva)].flags.Includes(perm))
    ensures r == -E_NO_MEM <==>
              && r != -E_INVAL && dstva < UTOP && old(m.free) == [] && !HasTable(old(m.St()), re, PageNum(dstva))
    ensures r != OK || dstva >= UTOP ==> Undisturbed(old(m.St()), old(m.pages[..]), old(m.free), m.St(), m.pages[..])
    ensures r == OK && dstva < UTOP ==>
              && SetKey(old(Views(m.St())), re, PageNum(dstva),
                        Word(old(EnvSpace(m.St(), se))[PageNum(srcva)].frame, perm.(p := true)), Views(m.St()))
              && SameData(old(m.St()), m.St(), set f | f in old(m.free))
  {
    hide Inv, Typed, Shape, Space, OtherSpaces, SameData, SameSpaces, Undisturbed, Views, SetKey;
    ghost var s := m.St();
    InvTyped(s, m.pages[..], m.freeList, m.free, m.hold, m.limbo);
    InvHead(s, m.pages[..], m.freeList, m.free, m.hold, m.limbo);
    UserPageNum(srcva);
    var sd, sv := m.pgdirs[se], PageNum(srcva);
    var pp, pt := m.PageLookup(sd, sv);
    MakeUndisturbed(s, old(m.pages[..]), old(m.free), m.St(), m.pages[..]);
    if pp == NIL {
      return -E_INVAL;
    }
    if !m.frames[pt][Ptx(sv)].flags.Includes(perm) {
      return -E_INVAL;
    }
    if perm.w && !m.frames[pt][Ptx(sv)].flags.w {
      return -E_INVAL;
    }
    r := OK;
    if dstva < UTOP {
      UserPageNum(dstva);
      SpaceFrames(s, sd, sv);
      MappedNotFree(s, m.pages[..], m.freeList, m.free, sd, sv);
      r := m.PageInsert(m.pgdirs[re], pp, PageNum(dstva), perm);
      if r == OK {
        OneView(s, m.St(), re, PageNum(dstva), Word(pp, perm.(p := true)));
      }
    }
  }

  /** What a send without error leaves in the receiver's record; env_ipc_perm moves only with a page. */
  function Delivered(e: Env, from: int, value: int, perm: Flags, moved: bool): Env {
    e.(recving := false, from := from, value := value, status := RUNNABLE, perm := if moved then perm else e.perm)
  }

  /** The stores to the receiver's record. */
  method Deliver(t: EnvTable, e: nat, from: int, value: int, perm: Flags, moved: bool)
    requires t.Valid() && e < NENV && t.envs[e].status != FREE
    modifies t.envs
    ensures t.Valid() && t.envs[..] == old(t.envs[..])[e := Delivered(old(t.envs[e]), from, value, perm, moved)]
    ensures Woken(old(t.envs[..]), e, from, value, perm, moved, t.envs[..])
  {
    hide EnvList, Woken;
    DeliveredWakes(t.envs[..], e, from, value, perm, moved);
    PutEnv(t, e, Delivered(t.envs[e], from, value, perm, moved));
  }

  method SysIpcTrySend(m: PhysMem, t: EnvTable, cur: nat, envid: int, value: int, srcva: nat, perm: Flags)
    returns (r: int)
    requires Quiet(m, t) && cur < NENV && t.envs[cur].status != FREE
    requires FewMappings(EnvSpace(m.St(), cur), PageNum(srcva), m.pages[..])
    modifies t.envs, m`freeList, m`free, m`hold, m`limbo, m`kind, m.pages, m.frames
    ensures Quiet(m, t)
    ensures r == OK || r == -E_BAD_ENV || r == -E_IPC_NOT_RECV || r == -E_INVAL || r == -E_NO_MEM
    ensures r == -E_BAD_ENV <==> !old(t.Resolves(envid, cur, false))
    ensures r == -E_IPC_NOT_RECV <==> old(t.Resolves(envid, cur, false)) && !old(t.envs[SlotOf(envid, cur)].recving)
    ensures r == -E_INVAL <==>
              && old(t.Resolves(envid, cur, false)) && old(t.envs[SlotOf(envid, cur)].recving) && srcva < UTOP
              && !(srcva % PGSIZE == 0 && PageNum(srcva) in old(EnvSpace(m.St(), cur)) &&
                   old(EnvSpace(m.St(), cur))[PageNum(srcva)].flags.Includes(perm))
    ensures r == -E_NO_MEM <==>
              && r != -E_BAD_ENV && r != -E_IPC_NOT_RECV && r != -E_INVAL
              && srcva < UTOP && old(t.envs[SlotOf(envid, cur)]).dstva < UTOP && old(m.free) == []
              && !HasTable(old(m.St()), SlotOf(envid, cur), PageNum(old(t.envs[SlotOf(envid, cur)]).dstva))
    ensures r != OK ==>
              && t.envs[..] == old(t.envs[..])
              && Undisturbed(old(m.St()), old(m.pages[..]), old(m.free), m.St(), m.pages[..])
    ensures r == OK ==>
              Woken(old(t.envs[..]), SlotOf(envid, cur), old(t.envs[cur].id), value, perm,
                    srcva < UTOP && old(t.envs[SlotOf(envid, cur)]).dstva < UTOP, t.envs[..])
    ensures r == OK ==>
              var e := SlotOf(envid, cur);
              var moved := srcva < UTOP && old(t.envs[e]).dstva < UTOP;
              && t.envs[..] == old(t.envs[..])[e := Delivered(old(t.envs[e]), old(t.envs[cur]).id, value, perm, moved)]
              && (!moved ==> Undisturbed(old(m.St()), old(m.pages[..]), old(m.free), m.St(), m.pages[..]))
              && (moved ==> SetKey(old(Views(m.St())), e, PageNum(old(t.envs[e]).dstva),
                                   Word(old(EnvSpace(m.St(), cur))[PageNum(srcva)].frame, perm.(p := true)),
                                   Views(m.St()))
                            && SameData(old(m.St()), m.St(), set f | f in old(m.free)))
  {
    hide Inv, Typed, Shape, Space, OtherSpaces, SameData, SameSpaces, Undisturbed, Views, SetKey, EnvList, Woken,
         HasTable, FewMappings;
    ghost var s := m.St();
    InvTyped(s, m.pages[..], m.freeList, m.free, m.hold, m.limbo);
    UndisturbedRefl(s, m.pages[..], m.free);
    var e;
    r, e := t.Envid2Env(envid, cur, false);
    if r < 0 {
      return -E_BAD_ENV;
    }
    if !t.envs[e].recving {
      return -E_IPC_NOT_RECV;
    }
    var moved := false;
    if srcva < UTOP {
      if srcva % PGSIZE != 0 {
        return -E_INVAL;
      }
      EnvVm.RootIsDir(s, cur);
      EnvVm.RootIsDir(s, e);
      r := SendPage(m, cur, srcva, e, t.envs[e].dstva, perm);
      if r != OK {
        return;
      }
      moved := t.envs[e].dstva < UTOP;
    }
    Deliver(t, e, t.envs[cur].id, value, perm, moved);
    r := OK;
  }

  /** The identity of an environment, which no system call changes. */
  predicate SameWho(e: Env, e': Env) {
    e'.id == e.id && e'.parent == e.parent && e'.link == e.link && e'.runs == e.runs
  }

  predicate OthersSame(envs: seq<Env>, e: nat, envs': seq<Env>) {
    |envs'| == |envs| && forall i :: 0 <= i < |envs| && i != e ==> envs'[i] == envs[i]
  }

  /** What a successful send does, field by field: the receiver can run again, no longer waits, and has the
      sender's identifier, the value and, with a page, the permission. */
  predicate Woken(envs: seq<Env>, to: nat, from: int, value: int, perm: Flags, moved: bool, envs': seq<Env>) {
    && OthersSame(envs, to, envs') && to < |envs|
    && envs'[to].status == RUNNABLE && !envs'[to].recving && envs'[to].from == from && envs'[to].value == value
    && envs'[to].perm == (if moved then perm else envs[to].perm)
    && SameWho(envs[to], envs'[to]) && envs'[to].dstva == envs[to].dstva
  }

  /** And a successful recv: the caller waits, at the address it names, and cannot run. */
  predicate Waiting(envs: seq<Env>, e: nat, dstva: nat, envs': seq<Env>) {
    && OthersSame(envs, e, envs') && e < |envs|
    && envs'[e].status == NOT_RUNNABLE && envs'[e].recving && envs'[e].dstva == dstva
    && SameWho(envs[e], envs'[e]) && envs'[e].from == envs[e].from && envs'[e].value == envs[e].value
    && envs'[e].perm == envs[e].perm
  }

  lemma DeliveredWakes(envs: seq<Env>, to: nat, from: int, value: int, perm: Flags, moved: bool)
    requires to < |envs|
    ensures Woken(envs, to, from, value, perm, moved, envs[to := Delivered(envs[to], from, value, perm, moved)])
  {
  }

  lemma BlockedWaits(envs: seq<Env>, e: nat, dstva: nat)
    requires e < |envs|
    ensures Waiting(envs, e, dstva, envs[e := Blocked(envs[e], dstva)])
  {
  }

  /** A caller of sys_ipc_recv, blocked. */
  function Blocked(e: Env, dstva: nat): Env { e.(recving := true, dstva := dstva, status := NOT_RUNNABLE) }

  /** sys_ipc_recv up to its call of sys_yield. */
  method SysIpcRecv(t: EnvTable, cur: nat, dstva: nat) returns (r: int)
    requires t.Valid() && cur < NENV && t.envs[cur].status != FREE
    modifies t.envs
    ensures t.Valid()
    ensures r == if dstva < UTOP && dstva % PGSIZE != 0 then -E_INVAL else OK
    ensures r != OK ==> t.envs[..] == old(t.envs[..])
    ensures r == OK ==>
              t.envs[..] == old(t.envs[..])[cur := Blocked(old(t.envs[cur]), dstva)]
    ensures r == OK ==> Waiting(old(t.envs[..]), cur, dstva, t.envs[..])
  {
    if dstva < UTOP && dstva % PGSIZE != 0 {
      return -E_INVAL;
    }
    BlockedWaits(t.envs[..], cur, dstva);
    PutEnv(t, cur, Blocked(t.envs[cur], dstva));
    r := OK;
  }
}

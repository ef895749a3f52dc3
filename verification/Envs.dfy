/** kern/env.c: the table of environments and its free list. */
module Envs {
  import opened Mmu
  import opened PageRefs
  import opened Pmap
  import opened Spaces
  import opened EnvIds
  import EnvVm

  /** struct Env, without the saved registers and the page directory (pgdirs[] of the physical memory). */
  datatype Env = Env(id: int, parent: int, status: Status, link: int, runs: nat,
                     recving: bool, dstva: nat, value: int, from: int, perm: Flags)

  /** What env_alloc makes of a free slot; the IPC fields keep what the previous environment left. */
  function Born(e: Env, id: int, parent: int): Env {
    e.(id := id, parent := parent, status := RUNNABLE, runs := 0, recving := false)
  }

  function SlotOf(envid: int, curenv: nat): nat { if envid == 0 then curenv else EnvX(envid) }

  /** `free` is the chain that starts at `head` and follows env_link. */
  ghost predicate EnvChain(envs: seq<Env>, head: int, free: seq<nat>) {
    && head == (if free == [] then NIL else free[0])
    && (forall k :: 0 <= k < |free| ==> free[k] < |envs| && envs[free[k]].link == Next(free, k))
    && (forall k, l :: 0 <= k < l < |free| ==> free[k] != free[l])
  }

  ghost predicate FreeSlots(envs: seq<Env>, free: seq<nat>) {
    forall i: nat :: i in free <==> i < |envs| && envs[i].status == FREE
  }

  /** env_free_list threads exactly the FREE slots, each once. */
  ghost predicate EnvList(envs: seq<Env>, head: int, free: seq<nat>) {
    EnvChain(envs, head, free) && FreeSlots(envs, free)
  }

  lemma EnvListHead(envs: seq<Env>, head: int, free: seq<nat>)
    requires EnvList(envs, head, free)
    ensures head == if free == [] then NIL else free[0]
    ensures free != [] ==> free[0] < |envs| && envs[free[0]].status == FREE
  {
    if free != [] {
      assert free[0] in free;
    }
  }

  lemma EnvListInit(envs: seq<Env>, head: int, free: seq<nat>)
    requires |envs| == |free| == NENV && head == 0
    requires forall k :: 0 <= k < NENV ==> free[k] == k
    requires forall k :: 0 <= k < NENV ==> envs[k].status == FREE && envs[k].link == if k + 1 < NENV then k + 1 else NIL
    ensures EnvList(envs, head, free)
  {
    forall i: nat ensures i in free <==> i < NENV
    {
      if i < NENV {
        assert free[i] == i;
      }
    }
  }

  lemma FreeSlotsPop(envs: seq<Env>, free: seq<nat>, e: Env)
    requires free != [] && free[0] < |envs| && e.status != FREE && free[0] !in free[1..] && FreeSlots(envs, free)
    ensures FreeSlots(envs[free[0] := e], free[1..])
  {
    assert free == [free[0]] + free[1..];
    assert forall i: nat :: i in free <==> i == free[0] || i in free[1..];
  }

  lemma EnvChainPop(envs: seq<Env>, head: int, free: seq<nat>, e: Env)
    requires EnvChain(envs, head, free) && free != []
    ensures free[0] < |envs| && free[0] !in free[1..] && EnvChain(envs[free[0] := e], envs[free[0]].link, free[1..])
  {
    var rest, envs' := free[1..], envs[free[0] := e];
    forall k | 0 <= k < |rest|
      ensures rest[k] < |envs'| && envs'[rest[k]].link == Next(rest, k)
    {
      assert rest[k] == free[k+1] && free[0] != free[k+1];
    }
    assert envs[free[0]].link == Next(free, 0);
  }

  lemma EnvListPop(envs: seq<Env>, head: int, free: seq<nat>, e: Env)
    requires EnvList(envs, head, free) && free != [] && e.status != FREE
    ensures free[0] < |envs| && EnvList(envs[free[0] := e], envs[free[0]].link, free[1..])
  {
    hide EnvChain, FreeSlots;
    EnvChainPop(envs, head, free, e);
    FreeSlotsPop(envs, free, e);
  }

  lemma FreeSlotsPush(envs: seq<Env>, free: seq<nat>, i: nat, e: Env)
    requires i < |envs| && e.status == FREE && FreeSlots(envs, free)
    ensures FreeSlots(envs[i := e], [i] + free)
  {
    assert forall k: nat :: k in [i] + free <==> k == i || k in free;
  }

  lemma EnvChainPush(envs: seq<Env>, head: int, free: seq<nat>, i: nat, e: Env)
    requires EnvChain(envs, head, free) && i < |envs| && i !in free && e.link == head
    ensures EnvChain(envs[i := e], i, [i] + free)
  {
    var more, envs' := [i] + free, envs[i := e];
    forall k | 0 <= k < |more|
      ensures more[k] < |envs'| && envs'[more[k]].link == Next(more, k)
    {
      if k > 0 {
        assert more[k] == free[k-1];
      }
    }
  }

  lemma EnvListPush(envs: seq<Env>, head: int, free: seq<nat>, i: nat, e: Env)
    requires EnvList(envs, head, free) && i < |envs| && envs[i].status != FREE && e.status == FREE && e.link == head
    ensures EnvList(envs[i := e], i, [i] + free)
  {
    hide EnvChain;
    assert i !in free;
    EnvChainPush(envs, head, free, i, e);
    FreeSlotsPush(envs, free, i, e);
  }

  class EnvTable {
    const envs: array<Env>
    var freeList: int
    ghost var free: seq<nat>
    ghost var allocs: seq<nat>        // how many environments have lived in each slot

    ghost predicate Valid()
      reads this, envs
    {
      && envs.Length == NENV == |allocs|
      && EnvList(envs[..], freeList, free)
      && (forall i :: 0 <= i < NENV ==> envs[i].id == KthId(allocs[i], i))
      && (forall i :: 0 <= i < NENV && envs[i].status != FREE ==> allocs[i] > 0)
      && (forall i :: 0 <= i < NENV && envs[i].recving && envs[i].dstva < UTOP ==> envs[i].dstva % PGSIZE == 0)
    }

    /** Exactly the environments in use have an address space. */
    ghost predicate InSync(m: PhysMem)
      reads this, envs, m.pgdirs
    {
      m.pgdirs.Length == envs.Length && forall i :: 0 <= i < envs.Length ==>
          (envs[i].status == FREE <==> m.pgdirs[i] == 0)
    }

    /** env_init: the slots are pushed from the last to the first, so that the first allocation is slot 0. */
    constructor ()
      ensures Valid() && fresh(envs)
      ensures free == seq(NENV, i => i)
      ensures forall i :: 0 <= i < NENV ==> envs[i].status == FREE && envs[i].id == 0 && allocs[i] == 0
    {
      envs := new Env[NENV](_ => Env(0, 0, FREE, NIL, 0, false, 0, 0, 0, NOFLAGS));
      freeList, free, allocs := NIL, [], seq(NENV, _ => 0);
      new;
      InitList();
    }

    method InitList()
      requires forall k :: 0 <= k < envs.Length ==> !envs[k].recving
      requires envs.Length == NENV && freeList == NIL && free == [] && allocs == seq(NENV, _ => 0)
      modifies `freeList, `free, envs
      ensures Valid() && free == seq(NENV, i => i)
      ensures forall i :: 0 <= i < NENV ==> envs[i].status == FREE && envs[i].id == 0
    {
      hide EnvList;
      var i := NENV;
      while i > 0
        invariant 0 <= i <= NENV && |free| == NENV - i
        invariant forall k :: 0 <= k < |free| ==> free[k] == i + k
        invariant freeList == if free == [] then NIL else free[0]
        invariant forall k :: i <= k < NENV ==> envs[k].link == if k + 1 < NENV then k + 1 else NIL
        invariant forall k :: i <= k < NENV ==> envs[k].status == FREE && envs[k].id == 0
        invariant forall k :: 0 <= k < NENV ==> !envs[k].recving
      {
        i := i - 1;
        envs[i] := envs[i].(status := FREE, id := 0, link := freeList);
        freeList, free := i, [i] + free;
      }
      assert free == seq(NENV, i => i);
      EnvListInit(envs[..], freeList, free);
    }

    /** Does envid2env accept this identifier? */
    predicate Resolves(envid: int, curenv: nat, checkperm: bool)
      requires envs.Length == NENV && curenv < NENV
      reads this, envs
    {
      || envid == 0
      || (&& envs[EnvX(envid)].status != FREE && envs[EnvX(envid)].id == envid
          && (checkperm ==> EnvX(envid) == curenv || envs[EnvX(envid)].parent == envs[curenv].id))
    }

    /** The identifier of an environment in use says where it is, so the one slot looked at is enough. */
    lemma ResolvesIs(envid: int, curenv: nat, checkperm: bool)
      requires Valid() && curenv < NENV
      ensures Resolves(envid, curenv, checkperm) <==>
                || envid == 0
                || exists i :: 0 <= i < NENV && envs[i].status != FREE && envs[i].id == envid
                               && (checkperm ==> i == curenv || envs[i].parent == envs[curenv].id)
    {
      hide EnvList, KthId;
      if i :| 0 <= i < NENV && envs[i].status != FREE && envs[i].id == envid
              && (checkperm ==> i == curenv || envs[i].parent == envs[curenv].id) {
        KthIdFormula(allocs[i], i);
        assert EnvX(envid) == i;
      }
    }

    /** envid2env: slot lookup, staleness test and permission test. */
    method Envid2Env(envid: int, curenv: nat, checkperm: bool) returns (r: int, e: int)
      requires Valid() && curenv < NENV
      ensures r == OK || (r == -E_BAD_ENV && e == NIL)
      ensures r == OK <==> Resolves(envid, curenv, checkperm)
      ensures r == OK ==> e == SlotOf(envid, curenv)
      ensures r == OK ==>
                0 <= e < NENV && if envid == 0 then e == curenv else envs[e].status != FREE && envs[e].id == envid
    {
      hide EnvList, KthId;
      if envid == 0 {
        return OK, curenv;
      }
      e := EnvX(envid);
      if envs[e].status == FREE || envs[e].id != envid {
        return -E_BAD_ENV, NIL;
      }
      if checkperm && e != curenv && envs[e].parent != envs[curenv].id {
        return -E_BAD_ENV, NIL;
      }
      r := OK;
    }

    /** env_alloc.  On failure neither the table nor any address space changes. */
    method EnvAlloc(m: PhysMem, parent: int) returns (r: int, e: nat)
      requires Valid() && m.Valid() && m.hold == multiset{} && m.limbo == {} && InSync(m)
      modifies this, envs, m`freeList, m`free, m`hold, m`limbo, m`kind, m.pages, m.frames, m.pgdirs
      ensures Valid() && m.Valid() && m.hold == multiset{} && m.limbo == {} && InSync(m)
      ensures r == if old(free) == [] then -E_NO_FREE_ENV else if old(m.free) == [] then -E_NO_MEM else OK
      ensures r != OK ==>
                envs[..] == old(envs[..]) && free == old(free) && m.St() == old(m.St()) && allocs == old(allocs)
      ensures r == OK ==>
                && e == old(free)[0] && free == old(free)[1..] && e < NENV
                && allocs == old(allocs)[e := old(allocs[e]) + 1]
                && envs[..] == old(envs[..])[e := envs[e]]
                && envs[e] == Born(old(envs[e]), KthId(allocs[e], e), parent)
                && envs[e].id == KthId(allocs[e], e) && envs[e].parent == parent && envs[e].status == RUNNABLE
                && envs[e].runs == 0 && !envs[e].recving
                && e < m.pgdirs.Length && m.pgdirs[e] < m.frames.Length == |m.kind|
                && m.kind[m.pgdirs[e]] == Dir(e) && m.User(m.pgdirs[e]) == map[]
                && m.pgdirs[..] == old(m.pgdirs[..])[e := old(m.free)[0]]
                && SameSpaces(old(m.St()), m.St()) && SameData(old(m.St()), m.St(), {old(m.free)[0]})
                && m.free == old(m.free)[1..]
    {
      hide Inv, EnvList, SameSpaces, SameData, Space;
      EnvListHead(envs[..], freeList, free);
      if freeList == NIL {
        return -E_NO_FREE_ENV, 0;
      }
      e := freeList;
      r := EnvVm.EnvSetupVm(m, e);
      if r < 0 {
        return;
      }
      var ne := Born(envs[e], NextId(envs[e].id, e), parent);
      EnvListPop(envs[..], freeList, free, ne);
      freeList := envs[e].link;
      ghost var was := envs[..];
      envs[e] := ne;
      assert envs[..] == was[e := ne];
      free, allocs := free[1..], allocs[e := allocs[e] + 1];
    }

    /** env_free, after the address space is gone: the slot returns to the front of the free list. */
    method EnvFree(m: PhysMem, e: nat)
      requires Valid() && m.Valid() && m.hold == multiset{} && m.limbo == {} && InSync(m)
      requires e < NENV && envs[e].status != FREE
      modifies this, envs, m`freeList, m`free, m`hold, m`limbo, m`kind, m.pages, m.frames, m.pgdirs
      ensures Valid() && m.Valid() && m.hold == multiset{} && m.limbo == {} && InSync(m)
      ensures free == [e] + old(free) && allocs == old(allocs)
      ensures envs[..] == old(envs[..])[e := old(envs[e]).(status := FREE, link := old(freeList))]
      ensures e < |old(m.St()).roots| && EnvVm.Freed(old(m.St()), m.St(), e)
    {
      hide Inv, EnvVm.Freed, EnvList;
      EnvVm.EnvFree(m, e);
      EnvVm.FreedRoots(old(m.St()), m.St(), e);
      var ne := envs[e].(status := FREE, link := freeList);
      EnvListPush(envs[..], freeList, free, e, ne);
      ghost var was := envs[..];
      envs[e] := ne;
      assert envs[..] == was[e := ne];
      freeList, free := e, [e] + free;
    }
  }

  /** An identifier from the j-th life of a slot is accepted only while the slot is in use and a whole
      number of turns of the generation counter later; in particular never within the next 2^19 - 2 lives. */
  lemma StaleIdRejected(t: EnvTable, i: nat, j: nat, curenv: nat)
    requires t.Valid() && i < NENV && curenv < NENV && 0 < j <= t.allocs[i]
    ensures t.Resolves(KthId(j, i), curenv, false) <==> t.envs[i].status != FREE && (t.allocs[i] - j) % GENERATIONS == 0
    ensures 0 < t.allocs[i] - j < GENERATIONS ==> !t.Resolves(KthId(j, i), curenv, false)
  {
    hide EnvList;
    KthIdFormula(j, i);
    StaleIdCollides(j, t.allocs[i], i);
  }
}

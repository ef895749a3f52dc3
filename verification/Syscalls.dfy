/** kern/syscall.c: the system calls that change address spaces, with every error path. */
module Syscalls {
  import opened Mmu
  import opened PageRefs
  import opened PageCounts
  import opened Spaces
  import opened Pmap
  import opened EnvIds
  import opened Envs
  import EnvVm

  /** Between two system calls the kernel holds nothing back. */
  ghost predicate Quiet(m: PhysMem, t: EnvTable)
    reads m, m.pages, m.frames, m.pgdirs, t, t.envs
  {
    m.Valid() && m.hold == multiset{} && m.limbo == {} && t.Valid() && t.InSync(m)
  }

  /** Nothing a user can see has changed: all address spaces, the contents of all pages in use, and
      the reference counts of all pages that were in use. */
  ghost predicate Undisturbed(s: Mem, pages: seq<PageInfo>, free: seq<nat>, s': Mem, pages': seq<PageInfo>) {
    && SameSpaces(s, s') && SameData(s, s', set f | f in free)
    && s'.managed == s.managed && RefsKept(s.managed, pages, free, pages')
  }

  lemma UndisturbedRefl(s: Mem, pages: seq<PageInfo>, free: seq<nat>)
    requires |s.kind| == |s.frames|
    ensures Undisturbed(s, pages, free, s, pages)
  {
  }

  /** Zeroing a page that stays on the free list disturbs nothing. */
  lemma ScrubUndisturbed(s: Mem, pages: seq<PageInfo>, head: int, free: seq<nat>,
                         s': Mem, pages': seq<PageInfo>, head': int, free': seq<nat>, f: nat, page: Page)
    requires Inv(s, pages, head, free, multiset{}, {}) && Inv(s', pages', head', free', multiset{}, {})
    requires |s.kind| == |s.frames| && f in free && f < |s.frames| && s' == s.(frames := s.frames[f := page])
    ensures |s'.kind| == |s'.frames| && Undisturbed(s, pages, free, s', pages')
  {
    hide Inv, Typed, Refs, Shape, Space;
    InvTyped(s, pages, head, free, multiset{}, {});
    InvHead(s, pages, head, free, multiset{}, {});
    InvHead(s', pages', head', free', multiset{}, {});
    forall x | 0 <= x < |s.frames| && s.kind[x].Dir?
      ensures Space(s'.frames, x) == Space(s.frames, x)
    {
      TypedScrubbed(s, f, page, x);
    }
    forall p: nat | p in s.managed
      ensures p < |pages| == |pages'| && pages'[p].ref == pages[p].ref
    {
      EnvVm.FreeIffUnreferenced(s, pages, head, free, p);
      EnvVm.FreeIffUnreferenced(s', pages', head', free', p);
      ScrubRefs(s, f, page, p);
    }
  }

  lemma TypedScrubbed(s: Mem, f: nat, page: Page, x: nat)
    requires Typed(s) && |s.kind| == |s.frames| && f < |s.frames| && s.kind[f] == Data && x < |s.frames|
             && s.kind[x].Dir?
    ensures Space(s.frames[f := page], x) == Space(s.frames, x)
  {
    TypedScrub(s, f, page, x);
  }

  lemma ScrubSame(s: Mem, f: nat, page: Page)
    requires Typed(s) && |s.kind| == |s.frames| && f < |s.frames| && s.kind[f] == Data
    ensures SameSpaces(s, s.(frames := s.frames[f := page])) && SameData(s, s.(frames := s.frames[f := page]), {f})
  {
    hide Typed, Space;
    forall x | 0 <= x < |s.frames| && s.kind[x].Dir?
      ensures Space(s.frames[f := page], x) == Space(s.frames, x)
    {
      TypedScrubbed(s, f, page, x);
    }
  }

  /** The part of sys_page_alloc after its checks: allocate, insert, and give the page back on failure. */
  method AllocAndMap(m: PhysMem, d: nat, vpn: nat, perm: Flags) returns (r: int)
    requires m.Valid() && m.hold == multiset{} && m.limbo == {}
    requires d < m.frames.Length && |m.kind| == m.frames.Length && m.kind[d].Dir? && vpn < UTOP_VPN
    modifies m`freeList, m`free, m`hold, m`limbo, m`kind, m.pages, m.frames
    ensures m.Valid() && m.hold == multiset{} && m.limbo == {} && |m.kind| == m.frames.Length
    ensures r == if old(m.free) == [] || (|old(m.free)| == 1 && !Present(old(m.frames[d])[Pdx(vpn)]))
                 then -E_NO_MEM else OK
    ensures r != OK ==> Undisturbed(old(m.St()), old(m.pages[..]), old(m.free), m.St(), m.pages[..])
    ensures r == OK ==>
              && old(m.free) != [] && m.kind[d] == old(m.kind[d])
              && m.User(d) == old(m.User(d))[vpn := Word(old(m.free)[0], perm.(p := true))]
              && OtherSpaces(old(m.St()), m.St(), d) && SameData(old(m.St()), m.St(), set f | f in old(m.free))
              && old(m.free)[0] < m.frames.Length && m.frames[old(m.free)[0]] == ZEROPAGE
    ensures |m.free| + 2 >= |old(m.free)|
  {
    hide Inv, Typed, Shape, Space, OtherSpaces, SameData, SameSpaces, Undisturbed;
    ghost var s := m.St();
    InvHead(s, m.pages[..], m.freeList, m.free, m.hold, m.limbo);
    InvTyped(s, m.pages[..], m.freeList, m.free, m.hold, m.limbo);
    UndisturbedRefl(s, m.pages[..], m.free);
    var pp := m.PageAlloc(true);
    if pp == NIL {
      return -E_NO_MEM;
    }
    ghost var s1 := m.St();
    InvHead(s1, m.pages[..], m.freeList, m.free, m.hold, m.limbo);
    ScrubSame(s, pp, ZEROPAGE);
    r := m.PageInsert(d, pp, vpn, perm);
    if r < 0 {
      m.PageFree(pp);
      ScrubUndisturbed(s, old(m.pages[..]), old(m.freeList), old(m.free), m.St(), m.pages[..], m.freeList, m.free, pp,
          ZEROPAGE);
      return;
    }
    SameDataAt(s1, m.St(), (set f | f in old(m.free)[1..]), pp);
    OtherAfterSame(s, s1, m.St(), d);
    DataAfterData(s, s1, m.St(), {pp}, (set f | f in old(m.free)[1..]), (set f | f in old(m.free)));
  }

  method SysPageAlloc(m: PhysMem, t: EnvTable, cur: nat, envid: int, va: nat, perm: Flags) returns (r: int)
    requires Quiet(m, t) && cur < NENV && t.envs[cur].status != FREE
    modifies m`freeList, m`free, m`hold, m`limbo, m`kind, m.pages, m.frames
    ensures Quiet(m, t)
    ensures r == OK || r == -E_BAD_ENV || r == -E_INVAL || r == -E_NO_MEM
    ensures r == -E_BAD_ENV <==> !t.Resolves(envid, cur, true)
    ensures r == -E_INVAL <==> t.Resolves(envid, cur, true) && !(UserPage(va) && perm.ForSyscall())
    ensures r == -E_NO_MEM <==>
              && t.Resolves(envid, cur, true) && UserPage(va) && perm.ForSyscall()
              && (old(m.free) == [] || (|old(m.free)| == 1 && !HasTable(old(m.St()), SlotOf(envid, cur), PageNum(va))))
    ensures r != OK ==> Undisturbed(old(m.St()), old(m.pages[..]), old(m.free), m.St(), m.pages[..])
    ensures r == OK ==>
              && old(m.free) != [] && SlotOf(envid, cur) < |old(Views(m.St()))|
              && SetKey(old(Views(m.St())), SlotOf(envid, cur), PageNum(va), Word(old(m.free)[0], perm), Views(m.St()))
              && SameData(old(m.St()), m.St(), set f | f in old(m.free))
              && old(m.free)[0] < m.frames.Length && m.frames[old(m.free)[0]] == ZEROPAGE
    ensures |m.free| + 2 >= |old(m.free)|
  {
    hide Inv, Typed, Shape, Space, OtherSpaces, SameData, SameSpaces, Undisturbed, Views, SetKey, EnvList, HasTable;
    ghost var s := m.St();
    InvTyped(s, m.pages[..], m.freeList, m.free, m.hold, m.limbo);
    InvHead(s, m.pages[..], m.freeList, m.free, m.hold, m.limbo);
    UndisturbedRefl(s, m.pages[..], m.free);
    var e;
    r, e := t.Envid2Env(envid, cur, true);
    if r < 0 {
      return;
    }
    EnvVm.RootIsDir(s, e);
    r := AllocChecked(m, e, va, perm);
  }

  /** sys_page_alloc once the environment is known. */
  method AllocChecked(m: PhysMem, e: nat, va: nat, perm: Flags) returns (r: int)
    requires m.Valid() && m.hold == multiset{} && m.limbo == {}
    requires e < m.pgdirs.Length && |m.kind| == m.frames.Length
    requires 0 != m.pgdirs[e] < m.frames.Length && m.kind[m.pgdirs[e]].Dir?
    modifies m`freeList, m`free, m`hold, m`limbo, m`kind, m.pages, m.frames
    ensures m.Valid() && m.hold == multiset{} && m.limbo == {}
    ensures r == OK || r == -E_INVAL || r == -E_NO_MEM
    ensures r == -E_INVAL <==> !(UserPage(va) && perm.ForSyscall())
    ensures r == -E_NO_MEM <==>
              && UserPage(va) && perm.ForSyscall()
              && (old(m.free) == [] || (|old(m.free)| == 1 && !HasTable(old(m.St()), e, PageNum(va))))
    ensures r != OK ==> Undisturbed(old(m.St()), old(m.pages[..]), old(m.free), m.St(), m.pages[..])
    ensures r == OK ==>
              && old(m.free) != [] && e < |old(Views(m.St()))|
              && SetKey(old(Views(m.St())), e, PageNum(va), Word(old(m.free)[0], perm), Views(m.St()))
              && SameData(old(m.St()), m.St(), set f | f in old(m.free))
              && old(m.free)[0] < m.frames.Length && m.frames[old(m.free)[0]] == ZEROPAGE
    ensures |m.free| + 2 >= |old(m.free)|
  {
    hide Inv, Typed, Shape, Space, OtherSpaces, SameData, SameSpaces, Undisturbed, Views, SetKey;
    ghost var s := m.St();
    InvTyped(s, m.pages[..], m.freeList, m.free, m.hold, m.limbo);
    UndisturbedRefl(s, m.pages[..], m.free);
    ViewCount(s);
    if !UserPage(va) {
      return -E_INVAL;
    }
    if !perm.ForSyscall() {
      return -E_INVAL;
    }
    UserPageNum(va);
    r := AllocAndMap(m, m.pgdirs[e], PageNum(va), perm);
    if r == OK {
      OneView(s, m.St(), e, PageNum(va), Word(old(m.free)[0], perm));
    }
  }

  /** After setting one key in the space of environment e and nothing anywhere else. */
  ghost predicate SetKey(v: seq<map<nat, Word>>, e: nat, page: nat, w: Word, v': seq<map<nat, Word>>) {
    e < |v| && v' == SetIn(v, e, page, w)
  }

  lemma OneView(s: Mem, s': Mem, e: nat, page: nat, w: Word)
    requires Typed(s) && e < |s.roots| && 0 != s.roots[e] < |s.frames| == |s'.frames| && s'.roots == s.roots
    requires OtherSpaces(s, s', s.roots[e])
    requires Space(s'.frames, s.roots[e]) == Space(s.frames, s.roots[e])[page := w]
    ensures SetKey(Views(s), e, page, w, Views(s'))
  {
    hide Typed, Space, OtherSpaces;
    OtherViews(s, s', e);
  }

  /** page_lookup in one space, the PTE_W test, page_insert in another (or the same) one. */
  method LookupAndMap(m: PhysMem, sd: nat, sv: nat, dd: nat, dv: nat, perm: Flags) returns (r: int)
    requires m.Valid() && m.hold == multiset{} && m.limbo == {}
    requires sd < m.frames.Length && dd < m.frames.Length && |m.kind| == m.frames.Length && m.kind[sd].Dir?
             && m.kind[dd].Dir?
    requires sv < UTOP_VPN && dv < UTOP_VPN
    requires FewMappings(m.User(sd), sv, m.pages[..])
    modifies m`freeList, m`free, m`hold, m`limbo, m`kind, m.pages, m.frames
    ensures m.Valid() && m.hold == multiset{} && m.limbo == {} && |m.kind| == m.frames.Length
    ensures r == OK || r == -E_INVAL || r == -E_NO_MEM
    ensures r == -E_INVAL <==> sv !in old(m.User(sd)) || (perm.w && !old(m.User(sd))[sv].flags.w)
    ensures r == -E_NO_MEM <==> r != -E_INVAL && old(m.free) == [] && !Present(old(m.frames[dd])[Pdx(dv)])
    ensures r != OK ==> Undisturbed(old(m.St()), old(m.pages[..]), old(m.free), m.St(), m.pages[..])
    ensures r == OK ==>
              && m.kind[dd] == old(m.kind[dd]) && sv in old(m.User(sd))
              && m.User(dd) == old(m.User(dd))[dv := Word(old(m.User(sd))[sv].frame, perm.(p := true))]
              && OtherSpaces(old(m.St()), m.St(), dd) && SameData(old(m.St()), m.St(), set f | f in old(m.free))
    ensures |m.free| + 1 >= |old(m.free)|
  {
    hide Inv, Typed, Shape, Space, OtherSpaces, SameData, SameSpaces, Undisturbed;
    ghost var s := m.St();
    InvHead(s, m.pages[..], m.freeList, m.free, m.hold, m.limbo);
    InvTyped(s, m.pages[..], m.freeList, m.free, m.hold, m.limbo);
    var pp, pt := m.PageLookup(sd, sv);
    if pp == NIL {
      InvHead(m.St(), m.pages[..], m.freeList, m.free, m.hold, m.limbo);
      MakeUndisturbed(s, old(m.pages[..]), old(m.free), m.St(), m.pages[..]);
      return -E_INVAL;
    }
    UndisturbedRefl(s, m.pages[..], m.free);
    if perm.w && !m.frames[pt][Ptx(sv)].flags.w {
      return -E_INVAL;
    }
    SpaceFrames(s, sd, sv);
    MappedNotFree(s, m.pages[..], m.freeList, m.free, sd, sv);
    r := m.PageInsert(dd, pp, dv, perm);
  }

  lemma MakeUndisturbed(s: Mem, pages: seq<PageInfo>, free: seq<nat>, s': Mem, pages': seq<PageInfo>)
    requires s'.managed == s.managed
    requires SameSpaces(s, s') && SameData(s, s', set f | f in free) && RefsKept(s.managed, pages, free, pages')
    ensures Undisturbed(s, pages, free, s', pages')
  {
  }

  lemma MappedNotFree(s: Mem, pages: seq<PageInfo>, head: int, free: seq<nat>, d: nat, v: nat)
    requires Inv(s, pages, head, free, multiset{}, {}) && d < |s.frames| && |s.kind| == |s.frames| && s.kind[d].Dir?
    requires v in Space(s.frames, d)
    ensures Space(s.frames, d)[v].frame !in free
  {
    hide Inv, Typed, Refs, Space;
    InvTyped(s, pages, head, free, multiset{}, {});
    SpaceFrames(s, d, v);
    EnvVm.FreeIffUnreferenced(s, pages, head, free, Space(s.frames, d)[v].frame);
    SpaceKey(s, d, v);
    assert Entry(s.frames[d][Pdx(v)].frame, Ptx(v)) in Refs(s, Space(s.frames, d)[v].frame);
  }

  lemma SpaceKey(s: Mem, d: nat, v: nat)
    requires Typed(s) && d < |s.frames| && |s.kind| == |s.frames| && s.kind[d].Dir? && v in Space(s.frames, d)
    ensures v < UTOP_VPN && RefersTo(s, Entry(s.frames[d][Pdx(v)].frame, Ptx(v)), Space(s.frames, d)[v].frame)
  {
    Translate(s, d, v);
  }

  /** Everything sys_page_map demands of its arguments once both environments are known. */
  predicate MapArgs(src: map<nat, Word>, srcva: nat, dstva: nat, perm: Flags) {
    && UserPage(srcva) && UserPage(dstva) && perm.ForSyscall() && PageNum(srcva) in src
    && (perm.w ==> src[PageNum(srcva)].flags.w)
  }

  /** The same, argument by argument; in particular a page is mapped writable only from a writable one. */
  lemma MapArgsIs(src: map<nat, Word>, srcva: nat, dstva: nat, perm: Flags)
    ensures MapArgs(src, srcva, dstva, perm) <==>
              && srcva < UTOP && srcva % PGSIZE == 0 && dstva < UTOP && dstva % PGSIZE == 0
              && perm == Flags(true, perm.w, true, false, false, false, false, false, false, perm.av0, perm.av1,
                 perm.cow)
              && srcva / PGSIZE in src && (perm.w ==> src[srcva / PGSIZE].flags.w)
  {
  }

  method SysPageMap(m: PhysMem, t: EnvTable, cur: nat, srcid: int, srcva: nat, dstid: int, dstva: nat, perm: Flags)
    returns (r: int)
    requires Quiet(m, t) && cur < NENV && t.envs[cur].status != FREE
    requires FewMappings(EnvSpace(m.St(), SlotOf(srcid, cur)), PageNum(srcva), m.pages[..])
    modifies m`freeList, m`free, m`hold, m`limbo, m`kind, m.pages, m.frames
    ensures Quiet(m, t)
    ensures r == OK || r == -E_BAD_ENV || r == -E_INVAL || r == -E_NO_MEM
    ensures r == -E_BAD_ENV <==> !(t.Resolves(srcid, cur, true) && t.Resolves(dstid, cur, true))
    ensures r == -E_INVAL <==>
              && t.Resolves(srcid, cur, true) && t.Resolves(dstid, cur, true)
              && !MapArgs(old(EnvSpace(m.St(), SlotOf(srcid, cur))), srcva, dstva, perm)
    ensures r == -E_NO_MEM <==>
              && t.Resolves(srcid, cur, true) && t.Resolves(dstid, cur, true)
              && MapArgs(old(EnvSpace(m.St(), SlotOf(srcid, cur))), srcva, dstva, perm)
              && old(m.free) == [] && !HasTable(old(m.St()), SlotOf(dstid, cur), PageNum(dstva))
    ensures r != OK ==> Undisturbed(old(m.St()), old(m.pages[..]), old(m.free), m.St(), m.pages[..])
    ensures r == OK ==>
              && PageNum(srcva) in old(EnvSpace(m.St(), SlotOf(srcid, cur)))
              && SetKey(old(Views(m.St())), SlotOf(dstid, cur), PageNum(dstva),
                        Word(old(EnvSpace(m.St(), SlotOf(srcid, cur)))[PageNum(srcva)].frame, perm), Views(m.St()))
              && SameData(old(m.St()), m.St(), set f | f in old(m.free))
    ensures |m.free| + 1 >= |old(m.free)|
  {
    hide Inv, Typed, Shape, Space, OtherSpaces, SameData, SameSpaces, Undisturbed, Views, SetKey, MapArgs, EnvList,
         EnvSpace;
    ghost var s := m.St();
    InvTyped(s, m.pages[..], m.freeList, m.free, m.hold, m.limbo);
    InvHead(s, m.pages[..], m.freeList, m.free, m.hold, m.limbo);
    UndisturbedRefl(s, m.pages[..], m.free);
    var se, de;
    r, se := t.Envid2Env(srcid, cur, true);
    if r < 0 {
      return;
    }
    r, de := t.Envid2Env(dstid, cur, true);
    if r < 0 {
      return;
    }
    EnvVm.RootIsDir(s, se);
    EnvVm.RootIsDir(s, de);
    r := MapChecked(m, se, srcva, de, dstva, perm);
  }

  /** sys_page_map once both environments are known. */
  method MapChecked(m: PhysMem, se: nat, srcva: nat, de: nat, dstva: nat, perm: Flags) returns (r: int)
    requires m.Valid() && m.hold == multiset{} && m.limbo == {}
    requires se < m.pgdirs.Length && de < m.pgdirs.Length && |m.kind| == m.frames.Length
    requires 0 != m.pgdirs[se] < m.frames.Length && m.kind[m.pgdirs[se]].Dir?
    requires 0 != m.pgdirs[de] < m.frames.Length && m.kind[m.pgdirs[de]].Dir?
    requires FewMappings(EnvSpace(m.St(), se), PageNum(srcva), m.pages[..])
    modifies m`freeList, m`free, m`hold, m`limbo, m`kind, m.pages, m.frames
    ensures m.Valid() && m.hold == multiset{} && m.limbo == {}
    ensures r == OK || r == -E_INVAL || r == -E_NO_MEM
    ensures r == -E_INVAL <==> !MapArgs(old(EnvSpace(m.St(), se)), srcva, dstva, perm)
    ensures r == -E_NO_MEM <==>
              && MapArgs(old(EnvSpace(m.St(), se)), srcva, dstva, perm)
              && old(m.free) == [] && !HasTable(old(m.St()), de, PageNum(dstva))
    ensures r != OK ==> Undisturbed(old(m.St()), old(m.pages[..]), old(m.free), m.St(), m.pages[..])
    ensures r == OK ==>
              && PageNum(srcva) in old(EnvSpace(m.St(), se))
              && SetKey(old(Views(m.St())), de, PageNum(dstva),
                        Word(old(EnvSpace(m.St(), se))[PageNum(srcva)].frame, perm), Views(m.St()))
              && SameData(old(m.St()), m.St(), set f | f in old(m.free))
    ensures |m.free| + 1 >= |old(m.free)|
  {
    hide Inv, Typed, Shape, Space, OtherSpaces, SameData, SameSpaces, Undisturbed, Views, SetKey;
    ghost var s := m.St();
    InvTyped(s, m.pages[..], m.freeList, m.free, m.hold, m.limbo);
    UndisturbedRefl(s, m.pages[..], m.free);
    if !UserPage(srcva) {
      return -E_INVAL;
    }
    if !UserPage(dstva) {
      return -E_INVAL;
    }
    if !perm.ForSyscall() {
      return -E_INVAL;
    }
    UserPageNum(srcva);
    UserPageNum(dstva);
    r := LookupAndMap(m, m.pgdirs[se], PageNum(srcva), m.pgdirs[de], PageNum(dstva), perm);
    if r == OK {
      OneView(s, m.St(), de, PageNum(dstva), Word(EnvSpace(s, se)[PageNum(srcva)].frame, perm));
    }
  }

  /** Room for one more mapping in the 16-bit count of the page mapped at v. */
  predicate FewMappings(space: map<nat, Word>, v: nat, pages: seq<PageInfo>) {
    v in space && space[v].frame < |pages| ==> pages[space[v].frame].ref + 1 < MAXREF
  }

  method SysPageUnmap(m: PhysMem, t: EnvTable, cur: nat, envid: int, va: nat) returns (r: int)
    requires Quiet(m, t) && cur < NENV && t.envs[cur].status != FREE
    modifies m`freeList, m`free, m`hold, m`limbo, m`kind, m.pages, m.frames
    ensures Quiet(m, t)
    ensures r == if !t.Resolves(envid, cur, true) then -E_BAD_ENV else if !UserPage(va) then -E_INVAL else OK
    ensures r != OK ==> m.St() == old(m.St()) && m.pages[..] == old(m.pages[..])
    ensures r == OK ==>
              && SlotOf(envid, cur) < |old(Views(m.St()))|
              && Views(m.St()) == old(Views(m.St()))
                   [SlotOf(envid, cur) := old(EnvSpace(m.St(), SlotOf(envid, cur))) - {PageNum(va)}]
              && SameData(old(m.St()), m.St(), set f | f in old(m.free))
    ensures r == OK && PageNum(va) in old(EnvSpace(m.St(), SlotOf(envid, cur))) ==>
              |m.free| >= |old(m.free)| && HasTable(m.St(), SlotOf(envid, cur), PageNum(va))
  {
    hide Inv, Typed, Shape, Space, OtherSpaces, SameData, EnvList, Views;
    ghost var s := m.St();
    InvTyped(s, m.pages[..], m.freeList, m.free, m.hold, m.limbo);
    var e;
    r, e := t.Envid2Env(envid, cur, true);
    if r < 0 {
      return;
    }
    if !UserPage(va) {
      return -E_INVAL;
    }
    UserPageNum(va);
    EnvVm.RootIsDir(s, e);
    m.PageRemove(m.pgdirs[e], PageNum(va));
    OtherViews(s, m.St(), e);
    ViewCount(s);
  }

  lemma ViewCount(s: Mem)
    ensures |Views(s)| == |s.roots|
  {
  }
}

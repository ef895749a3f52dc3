/**
  User programs and their memory: loads, stores, and lib/fork.c's fault handler over the system calls.
  What each does to the machine is one action of the copy-on-write model.
*/
module UserPages {
  import opened Mmu
  import opened PageRefs
  import opened PageCounts
  import opened Spaces
  import opened Pmap
  import opened EnvIds
  import opened Envs
  import opened Syscalls
  import opened Mappings
  import opened Cow
  import EnvVm

  const PFTEMP := PFTEMP_VPN * PGSIZE

  /** The machine as the copy-on-write model sees it. */
  ghost function VmOf(s: Mem): Vm { Vm(Views(s), s.frames) }

  ghost predicate Calm(s: Mem, pages: seq<PageInfo>, head: int, free: seq<nat>) {
    Inv(s, pages, head, free, multiset{}, {})
  }

  lemma VmInRange(s: Mem)
    requires Typed(s)
    ensures InRange(VmOf(s))
  {
    hide Space;
    forall c, g: nat | MapsTo(Views(s), c, g) ensures g < |s.frames| {
      RootKind(s, c.env);
      SpaceFrames(s, s.roots[c.env], c.vpn);
    }
  }

  lemma RootKind(s: Mem, e: nat)
    requires Typed(s) && e < |s.roots| && s.roots[e] != 0
    ensures |s.kind| == |s.frames| && s.roots[e] < |s.frames| && s.kind[s.roots[e]] == Dir(e)
  {
  }

  /** A mapped page is never on the free list. */
  lemma MappedInUse(s: Mem, pages: seq<PageInfo>, head: int, free: seq<nat>, c: Place, g: nat)
    requires Calm(s, pages, head, free) && MapsTo(Views(s), c, g)
    ensures |s.kind| == |s.frames| && g < |s.frames| && s.kind[g] == Data && g !in free && g in s.managed
  {
    hide Inv, Typed, Space;
    InvTyped(s, pages, head, free, multiset{}, {});
    RootKind(s, c.env);
    SpaceFrames(s, s.roots[c.env], c.vpn);
    MappedNotFree(s, pages, head, free, s.roots[c.env], c.vpn);
    ManagedFrame(s, g);
  }

  lemma ManagedFrame(s: Mem, g: nat)
    requires Typed(s) && g in s.managed
    ensures g < |s.frames|
  {
  }

  /** A system call that only writes to pages it took from the free list keeps every mapped page. */
  lemma MappedKept(s: Mem, pages: seq<PageInfo>, head: int, free: seq<nat>, s': Mem, c: Place, g: nat)
    requires Calm(s, pages, head, free) && MapsTo(Views(s), c, g) && |s.kind| == |s.frames| && |s'.kind| == |s'.frames|
    requires SameData(s, s', set f | f in free)
    ensures g < |s.frames| == |s'.frames| && s'.frames[g] == s.frames[g]
  {
    hide Inv, Space, Views;
    MappedInUse(s, pages, head, free, c, g);
    SameDataAt(s, s', (set f | f in free), g);
  }

  lemma FreeIsUnused(s: Mem, pages: seq<PageInfo>, head: int, free: seq<nat>, f: nat)
    requires Calm(s, pages, head, free) && f in free
    ensures Unused(VmOf(s), f)
  {
    hide Calm, Views;
    forall c ensures !MapsTo(Views(s), c, f) {
      if MapsTo(Views(s), c, f) {
        MappedInUse(s, pages, head, free, c, f);
      }
    }
  }

  // ---------------------------------------------------------------- reading and writing user memory

  /** The self-map: reading uvpt[pn] walks the directory as if it were a page table.  It faults when
      there is no table for pn. */
  function Uvpt(frames: seq<Page>, d: nat, pn: nat): Word
    requires d < |frames| && pn < UTOP_VPN
  {
    Mem32(frames, d, Vpn(PDX_UVPT, pn / NENTRIES), pn % NENTRIES)
  }

  /** The word at index i of page v, as the hardware finds it. */
  function Mem32(frames: seq<Page>, d: nat, v: nat, i: nat): Word
    requires d < |frames| && i < NENTRIES
  {
    var pte := Leaf(frames, d, v);
    if Present(pte) && pte.frame < |frames| then frames[pte.frame][i] else NOTHING
  }

  lemma SelfMap(s: Mem, d: nat, pn: nat)
    requires Typed(s) && d < |s.frames| && |s.kind| == |s.frames| && s.kind[d].Dir? && pn < UTOP_VPN
    ensures Uvpt(s.frames, d, pn) == Leaf(s.frames, d, pn)
  {
    SplitVpn(pn);
    assert Pdx(Vpn(PDX_UVPT, pn / NENTRIES)) == PDX_UVPT && Ptx(Vpn(PDX_UVPT, pn / NENTRIES)) == Pdx(pn);
    assert s.frames[d][PDX_UVPT] == Word(d, PTE_U_P);
    assert pn % NENTRIES == Ptx(pn);
  }

  lemma LeafIsKey(s: Mem, e: nat, pn: nat)
    requires Typed(s) && e < |s.roots| && s.roots[e] != 0 && pn < UTOP_VPN
    ensures |s.kind| == |s.frames| && s.roots[e] < |s.frames| && s.kind[s.roots[e]].Dir?
    ensures pn in EnvSpace(s, e) <==> Present(Leaf(s.frames, s.roots[e], pn))
    ensures pn in EnvSpace(s, e) ==> EnvSpace(s, e)[pn] == Leaf(s.frames, s.roots[e], pn)
    ensures Views(s)[e] == EnvSpace(s, e)
  {
    RootKind(s, e);
  }

  /** A store to user memory in place of a whole page. */
  method WritePage(m: PhysMem, g: nat, page: Page)
    requires m.Valid() && m.hold == multiset{} && m.limbo == {} && g < m.frames.Length == |m.kind| && m.kind[g] == Data
    modifies m.frames
    ensures m.Valid() && m.St() == old(m.St()).(frames := old(m.frames[..])[g := page])
    ensures Views(m.St()) == old(Views(m.St()))
  {
    hide Inv, Typed, Views, SameSpaces, SameData;
    ghost var s := m.St();
    InvScrub(s, m.pages[..], m.freeList, m.free, m.hold, m.limbo, g, page);
    InvTyped(s, m.pages[..], m.freeList, m.free, m.hold, m.limbo);
    ScrubSame(s, g, page);
    m.frames[g] := page;
    assert m.St() == s.(frames := s.frames[g := page]);
    SameViews(s, m.St());
  }

  /** The frame behind a mapped page. */
  method FrameAt(m: PhysMem, e: nat, v: nat) returns (g: nat)
    requires m.Valid() && m.hold == multiset{} && m.limbo == {} && e < m.pgdirs.Length && m.pgdirs[e] != 0
             && v < UTOP_VPN
    requires v in EnvSpace(m.St(), e)
    ensures g == EnvSpace(m.St(), e)[v].frame && g < m.frames.Length == |m.kind| && m.kind[g] == Data
    ensures MapsTo(Views(m.St()), Place(e, v), g)
  {
    hide Inv, Typed;
    ghost var s := m.St();
    InvTyped(s, m.pages[..], m.freeList, m.free, m.hold, m.limbo);
    LeafIsKey(s, e, v);
    g := Leaf(m.frames[..], m.pgdirs[e], v).frame;
    assert MapsTo(Views(s), Place(e, v), g);
    MappedInUse(s, m.pages[..], m.freeList, m.free, Place(e, v), g);
  }

  /** sys_getenvid names the caller. */
  lemma OwnId(t: EnvTable, cur: nat)
    requires t.Valid() && cur < NENV && t.envs[cur].status != FREE
    ensures t.Resolves(t.envs[cur].id, cur, true) && SlotOf(t.envs[cur].id, cur) == cur && t.envs[cur].id > 0
  {
    KthIdFormula(t.allocs[cur], cur);
  }

  lemma SpaceKeys(s: Mem, e: nat)
    ensures forall v :: v in EnvSpace(s, e) ==> 0 <= v < UTOP_VPN
  {
  }

  lemma ViewIsSpace(s: Mem, e: nat)
    requires e < |Views(s)|
    ensures Views(s)[e] == EnvSpace(s, e)
  {
  }

  /** An environment in use has a directory, and its view is what that directory means. */
  lemma ViewOf(m: PhysMem, t: EnvTable, e: nat)
    requires Quiet(m, t) && e < NENV && t.envs[e].status != FREE
    ensures e < m.pgdirs.Length && 0 != m.pgdirs[e] < m.frames.Length == |m.kind| && m.kind[m.pgdirs[e]].Dir?
    ensures |Views(m.St())| == NENV && Views(m.St())[e] == EnvSpace(m.St(), e)
  {
    hide Inv, Typed, Space;
    InvTyped(m.St(), m.pages[..], m.freeList, m.free, m.hold, m.limbo);
    RootKind(m.St(), e);
  }

  /** What a user program reads at uvpt[pn] is the entry of its own address space. */
  lemma UvptIsKey(m: PhysMem, t: EnvTable, e: nat, pn: nat)
    requires Quiet(m, t) && e < NENV && t.envs[e].status != FREE && pn < UTOP_VPN
    ensures e < m.pgdirs.Length && m.pgdirs[e] < m.frames.Length
    ensures pn in EnvSpace(m.St(), e) <==> Present(Uvpt(m.frames[..], m.pgdirs[e], pn))
    ensures pn in EnvSpace(m.St(), e) ==> EnvSpace(m.St(), e)[pn] == Uvpt(m.frames[..], m.pgdirs[e], pn)
  {
    hide Inv, Typed, Space;
    ViewOf(m, t, e);
    InvTyped(m.St(), m.pages[..], m.freeList, m.free, m.hold, m.limbo);
    LeafIsKey(m.St(), e, pn);
    SelfMap(m.St(), m.pgdirs[e], pn);
  }

  // ---------------------------------------------------------------- pgfault

  /** Pages mapped afterwards hold what they held before. */
  ghost predicate KeptMapped(s: Mem, s': Mem) {
    && |s'.frames| == |s.frames|
    && forall c, x: nat :: MapsTo(Views(s'), c, x) && x < |s.frames| ==> s'.frames[x] == s.frames[x]
  }

  /** Page v of environment e has moved to the unused frame f, contents and all. */
  ghost predicate PageCopied(s: Mem, e: nat, v: nat, f: nat, s': Mem)
  {
    && e < |s.roots| && v in EnvSpace(s, e) && EnvSpace(s, e)[v].frame < |s.frames|
    && f < |s.frames| && f < |s'.frames| && Unused(VmOf(s), f)
    && Views(s') == SetIn(Views(s), e, v, Word(f, PTE_U_W_P))
    && KeptBut(VmOf(s), VmOf(s'), f) && s'.frames[f] == s.frames[EnvSpace(s, e)[v].frame]
  }

  lemma KeptByCall(s: Mem, pages: seq<PageInfo>, head: int, free: seq<nat>, s': Mem)
    requires Calm(s, pages, head, free) && |s.kind| == |s.frames| && |s'.kind| == |s'.frames|
    requires SameData(s, s', set f | f in free)
    ensures |s'.frames| == |s.frames|
    ensures forall c, x: nat :: MapsTo(Views(s), c, x) ==> x < |s.frames| && s'.frames[x] == s.frames[x]
  {
    hide Calm, Views;
    forall c, x: nat | MapsTo(Views(s), c, x) ensures x < |s.frames| && s'.frames[x] == s.frames[x] {
      MappedKept(s, pages, head, free, s', c, x);
    }
  }

  /** A system call that failed has changed no address space and no page in use. */
  lemma FailedCall(s: Mem, pages: seq<PageInfo>, head: int, free: seq<nat>, s': Mem, pages': seq<PageInfo>)
    requires Calm(s, pages, head, free) && Undisturbed(s, pages, free, s', pages') && s'.roots == s.roots
    requires |s.kind| == |s.frames| && |s'.kind| == |s'.frames|
    ensures Views(s') == Views(s) && SameData(s, s', set f | f in free) && KeptMapped(s, s')
  {
    hide Inv, Typed, Views, SameData, SameSpaces;
    InvTyped(s, pages, head, free, multiset{}, {});
    SameViews(s, s');
    KeptByCall(s, pages, head, free, s');
  }

  lemma FaultIsCopy(s0: Mem, p0: seq<PageInfo>, h0: int, f0: seq<nat>, s1: Mem, s2: Mem, s3: Mem, e: nat, v: nat)
    requires Calm(s0, p0, h0, f0) && f0 != []
    requires |s0.kind| == |s0.frames| && |s1.kind| == |s1.frames|
    requires e < |s0.roots| && v in EnvSpace(s0, e) && PFTEMP_VPN !in EnvSpace(s0, e)
    requires SetKey(Views(s0), e, PFTEMP_VPN, Word(f0[0], PTE_U_W_P), Views(s1)) && SameData(s0, s1, set f | f in f0)
    requires f0[0] < |s1.frames| && EnvSpace(s0, e)[v].frame < |s1.frames|
    requires s2.frames == s1.frames[f0[0] := s1.frames[EnvSpace(s0, e)[v].frame]] && Views(s2) == Views(s1)
    requires e < |s2.roots| && Views(s3) == Views(s2)[e := MovedUp(EnvSpace(s2, e), v, f0[0])] && KeptMapped(s2, s3)
    ensures PageCopied(s0, e, v, f0[0], s3)
  {
    hide Calm, EnvSpace, SameData;
    var f, g := f0[0], EnvSpace(s0, e)[v].frame;
    assert Views(s0)[e] == EnvSpace(s0, e) && Views(s2)[e] == EnvSpace(s2, e);
    FreeIsUnused(s0, p0, h0, f0, f);
    KeptByCall(s0, p0, h0, f0, s1);
    assert MapsTo(Views(s0), Place(e, v), g);
    assert Views(s3)[e] == SetPage(Views(s0)[e], v, Word(f, PTE_U_W_P));
    assert MapsTo(Views(s3), Place(e, v), f);
    forall c, x: nat | MapsTo(Views(s3), c, x) && x < |s0.frames| && x != f
      ensures s3.frames[x] == s0.frames[x]
    {
      assert MapsTo(Views(s0), c, x);
    }
  }

  /** The page moves from PFTEMP to v. */
  function MovedUp(space: map<nat, Word>, v: nat, f: nat): map<nat, Word> {
    SetPage(space - {v}, v, Word(f, PTE_U_W_P)) - {PFTEMP_VPN}
  }

  /** May pgfault go ahead: is the page copy-on-write? */
  predicate IsCow(space: map<nat, Word>, v: nat) { v in space && space[v].flags.cow }

  /** sys_page_alloc at PFTEMP needs a page and perhaps a page table. */
  predicate NoTempPage(s: Mem, free: seq<nat>, e: nat) {
    free == [] || (|free| == 1 && !HasTable(s, e, PFTEMP_VPN))
  }

  /** pgfault.  Not ok is its panic: the page is not copy-on-write, or memory has run out; nothing mapped
      has changed then.  (The write bit of the error code is not looked at: the kernel stores the trap
      number there, which has it.) */
  method PgFault(m: PhysMem, t: EnvTable, cur: nat, v: nat) returns (ok: bool)
    requires Quiet(m, t) && cur < NENV && t.envs[cur].status != FREE && v < UTOP_VPN
    requires PFTEMP_VPN !in EnvSpace(m.St(), cur)
    modifies m`freeList, m`free, m`hold, m`limbo, m`kind, m.pages, m.frames
    ensures Quiet(m, t)
    ensures ok <==> IsCow(old(EnvSpace(m.St(), cur)), v) && !NoTempPage(old(m.St()), old(m.free), cur)
    ensures ok ==> old(m.free) != [] && PageCopied(old(m.St()), cur, v, old(m.free)[0], m.St())
    ensures !ok ==> Views(m.St()) == old(Views(m.St())) && KeptMapped(old(m.St()), m.St())
    ensures |m.free| + 3 >= |old(m.free)|
  {
    hide Inv, Typed, Space, Views, SameData, Undisturbed, PageCopied, EnvList, KeptMapped, MovedUp, EnvSpace, HasTable;
    ghost var s0 := m.St();
    KeptRefl(s0);
    ViewOf(m, t, cur);
    UvptIsKey(m, t, cur, v);
    var w := Uvpt(m.frames[..], m.pgdirs[cur], v);
    if !Present(w) || !w.flags.cow {
      return false;
    }
    OwnId(t, cur);
    var r := SysPageAlloc(m, t, cur, t.envs[cur].id, PFTEMP, PTE_U_W_P);
    ViewOf(m, t, cur);
    if r < 0 {
      FailedCall(s0, old(m.pages[..]), old(m.freeList), old(m.free), m.St(), m.pages[..]);
      return false;
    }
    ghost var s1 := m.St();
    CopyAcross(m, t, cur, PFTEMP_VPN, v);
    ghost var s2 := m.St();
    ViewOf(m, t, cur);
    FreeIsUnused(s0, old(m.pages[..]), old(m.freeList), old(m.free), old(m.free)[0]);
    OnlyTemp(Views(s0), cur, old(m.free)[0]);
    ok := MoveTemp(m, t, cur, v, old(m.free)[0]);
    FaultIsCopy(s0, old(m.pages[..]), old(m.freeList), old(m.free), s1, s2, m.St(), cur, v);
  }

  lemma KeptRefl(s: Mem)
    ensures KeptMapped(s, s)
  {
  }

  /** memmove(dst, src, PGSIZE) between two mapped pages. */
  method CopyAcross(m: PhysMem, t: EnvTable, cur: nat, dst: nat, src: nat)
    requires Quiet(m, t) && cur < NENV && t.envs[cur].status != FREE && dst < UTOP_VPN && src < UTOP_VPN
    requires src in EnvSpace(m.St(), cur) && dst in EnvSpace(m.St(), cur) && EnvSpace(m.St(), cur)[dst].flags.w
    modifies m.frames
    ensures Quiet(m, t)
    ensures var f, g := old(EnvSpace(m.St(), cur)[dst].frame), old(EnvSpace(m.St(), cur)[src].frame);
            && f < |old(m.frames[..])| && g < |old(m.frames[..])|
            && m.frames[..] == old(m.frames[..])[f := old(m.frames[..])[g]]
    ensures m.St() == old(m.St()).(frames := m.frames[..])
    ensures Views(m.St()) == old(Views(m.St()))
  {
    hide Inv, Typed, Space, Views, EnvList, EnvSpace;
    ViewOf(m, t, cur);
    var h := FrameAt(m, cur, src);
    var k := FrameAt(m, cur, dst);
    WritePage(m, k, m.frames[h]);
  }

  method MoveTemp(m: PhysMem, t: EnvTable, cur: nat, v: nat, ghost f: nat) returns (ok: bool)
    requires Quiet(m, t) && cur < NENV && t.envs[cur].status != FREE && v < UTOP_VPN && v != PFTEMP_VPN
    requires v in EnvSpace(m.St(), cur)
    requires PFTEMP_VPN in EnvSpace(m.St(), cur) && EnvSpace(m.St(), cur)[PFTEMP_VPN] == Word(f, PTE_U_W_P)
    requires forall c :: MapsTo(Views(m.St()), c, f) ==> c == Place(cur, PFTEMP_VPN)
    modifies m`freeList, m`free, m`hold, m`limbo, m`kind, m.pages, m.frames
    ensures Quiet(m, t)
    ensures ok && cur < |old(m.St()).roots|
    ensures Views(m.St()) == old(Views(m.St()))[cur := MovedUp(old(EnvSpace(m.St(), cur)), v, f)]
    ensures KeptMapped(old(m.St()), m.St()) && |m.free| + 1 >= |old(m.free)|
  {
    hide Inv, Typed, Space, Views, SameData, Undisturbed, EnvList, EnvSpace;
    var self := t.envs[cur].id;
    ghost var s2, p2, h2, f2 := m.St(), m.pages[..], m.freeList, m.free;
    ViewOf(m, t, cur);
    OwnId(t, cur);
    var r := SysPageUnmap(m, t, cur, self, v * PGSIZE);
    ghost var s3, p3, h3, f3 := m.St(), m.pages[..], m.freeList, m.free;
    ViewOf(m, t, cur);
    OwnId(t, cur);
    StillOnlyTemp(Views(s2), cur, v, f, Views(s3));
    FewPlaces(m, {Place(cur, PFTEMP_VPN)}, cur, PFTEMP_VPN);
    r := SysPageMap(m, t, cur, self, PFTEMP, self, v * PGSIZE, PTE_U_W_P);
    if r < 0 {
      return false;
    }
    ghost var s4, p4, h4, f4 := m.St(), m.pages[..], m.freeList, m.free;
    ViewOf(m, t, cur);
    OwnId(t, cur);
    r := SysPageUnmap(m, t, cur, self, PFTEMP);
    ViewOf(m, t, cur);
    MoveKept(s2, p2, h2, f2, s3, p3, h3, f3, s4, p4, h4, f4, m.St(), cur, v, f);
    ok := true;
  }

  lemma OnlyTemp(views: seq<map<nat, Word>>, e: nat, f: nat)
    requires e < |views| && forall c :: !MapsTo(views, c, f)
    ensures forall c :: MapsTo(SetIn(views, e, PFTEMP_VPN, Word(f, PTE_U_W_P)), c, f) ==> c == Place(e, PFTEMP_VPN)
  {
    forall c | MapsTo(SetIn(views, e, PFTEMP_VPN, Word(f, PTE_U_W_P)), c, f) ensures c == Place(e, PFTEMP_VPN) {
      assert !MapsTo(views, c, f);
    }
  }

  lemma StillOnlyTemp(views: seq<map<nat, Word>>, e: nat, v: nat, f: nat, views': seq<map<nat, Word>>)
    requires e < |views| && (forall c :: MapsTo(views, c, f) ==> c == Place(e, PFTEMP_VPN))
             && views' == views[e := views[e] - {v}]
    ensures forall c :: MapsTo(views', c, f) ==> c in {Place(e, PFTEMP_VPN)}
  {
    forall c | MapsTo(views', c, f) ensures c in {Place(e, PFTEMP_VPN)} {
      assert MapsTo(views, c, f);
    }
  }

  lemma MoveKept(s2: Mem, p2: seq<PageInfo>, h2: int, f2: seq<nat>, s3: Mem, p3: seq<PageInfo>, h3: int, f3: seq<nat>,
                 s4: Mem, p4: seq<PageInfo>, h4: int, f4: seq<nat>, s5: Mem, e: nat, v: nat, f: nat)
    requires Calm(s2, p2, h2, f2) && Calm(s3, p3, h3, f3) && Calm(s4, p4, h4, f4)
    requires |s2.kind| == |s2.frames| && |s3.kind| == |s3.frames| && |s4.kind| == |s4.frames|
             && |s5.kind| == |s5.frames|
    requires e < |Views(s2)| && v in Views(s2)[e] && v != PFTEMP_VPN
    requires PFTEMP_VPN in Views(s2)[e] && Views(s2)[e][PFTEMP_VPN] == Word(f, PTE_U_W_P)
    requires Views(s3) == Views(s2)[e := Views(s2)[e] - {v}] && SameData(s2, s3, set x | x in f2)
    requires Views(s4) == SetIn(Views(s3), e, v, Word(f, PTE_U_W_P)) && SameData(s3, s4, set x | x in f3)
    requires Views(s5) == Views(s4)[e := Views(s4)[e] - {PFTEMP_VPN}] && SameData(s4, s5, set x | x in f4)
    ensures KeptMapped(s2, s5) && Views(s5) == Views(s2)[e := MovedUp(Views(s2)[e], v, f)]
  {
    hide Calm, SameData, Views;
    KeptByCall(s2, p2, h2, f2, s3);
    KeptByCall(s3, p3, h3, f3, s4);
    KeptByCall(s4, p4, h4, f4, s5);
    forall c, x: nat | MapsTo(Views(s5), c, x) && x < |s2.frames| ensures s5.frames[x] == s2.frames[x] {
      assert MapsTo(Views(s4), c, x);
      assert MapsTo(Views(s3), if c == Place(e, v) then Place(e, PFTEMP_VPN) else c, x);
      assert MapsTo(Views(s2), if c == Place(e, v) then Place(e, PFTEMP_VPN) else c, x);
    }
  }

  /** Few places, so room in the 16-bit count. */
  lemma FewPlaces(m: PhysMem, places: set<Place>, e: nat, v: nat)
    requires m.Valid() && m.hold == multiset{} && m.limbo == {} && |places| + 1 < MAXREF
    requires v in EnvSpace(m.St(), e)
    requires forall c :: MapsTo(Views(m.St()), c, EnvSpace(m.St(), e)[v].frame) ==> c in places
    ensures FewMappings(EnvSpace(m.St(), e), v, m.pages[..])
  {
    hide Inv, Typed, Space;
    var g := EnvSpace(m.St(), e)[v].frame;
    assert MapsTo(Views(m.St()), Place(e, v), g);
    MappedInUse(m.St(), m.pages[..], m.freeList, m.free, Place(e, v), g);
    RefIsPlaces(m.St(), m.pages[..], m.freeList, m.free, g);
    SubsetSize(Places(Views(m.St()), g), places);
  }

  lemma {:induction false} SubsetSize<T>(a: set<T>, b: set<T>)
    requires a <= b
    ensures |a| <= |b|
  {
    assert b == a + (b - a);
  }

  /** How a user-level function ends: with a value, or with a panic that ends the environment. */
  datatype Outcome = Returned(envid: int) | Panicked

  /** A slot that is not in use has an empty address space. */
  lemma NoView(m: PhysMem, t: EnvTable, e: nat)
    requires Quiet(m, t) && e < NENV && t.envs[e].status == FREE
    ensures e < |Views(m.St())| && Views(m.St())[e] == map[]
  {
  }

  lemma QuietInRange(m: PhysMem, t: EnvTable)
    requires Quiet(m, t)
    ensures InRange(VmOf(m.St()))
  {
    hide Inv, Typed, Space, Views;
    InvTyped(m.St(), m.pages[..], m.freeList, m.free, m.hold, m.limbo);
    VmInRange(m.St());
  }

  /** env_free, seen from all address spaces at once. */
  lemma ExitViews(s: Mem, s': Mem, e: nat)
    requires Typed(s) && e < |s.roots| && s.roots[e] != 0 && EnvVm.Freed(s, s', e)
    ensures |Views(s)| == |s.roots| && Views(s') == Views(s)[e := map[]] && SameData(s, s', {})
            && |s'.kind| == |s'.frames|
  {
    hide Space, Typed;
    EnvVm.FreedOthers(s, s', e);
    EnvVm.FreedRoots(s, s', e);
    forall x | 0 <= x < |s.roots| && x != e ensures Views(s')[x] == Views(s)[x] {
      if s.roots[x] != 0 {
        RootKind(s, x);
        RootKind(s, e);
      }
    }
  }
}

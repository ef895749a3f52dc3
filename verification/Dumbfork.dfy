/** user/dumbfork.c: the eager copy that copy-on-write fork is measured against. */
module Dumbfork {
  import opened Mmu
  import opened PageRefs
  import opened IpcSyscalls
  import opened Spaces
  import opened Pmap
  import opened EnvIds
  import opened Envs
  import opened Syscalls
  import opened Mappings
  import opened UserPages
  import opened Cow

  const UTEMP := UTEMP_VPN * PGSIZE

  /** The child has its own copy, in the unused frame f, of the parent's page. */
  ghost predicate GivenCopy(s: Mem, e: nat, child: nat, pn: nat, f: nat, s': Mem) {
    && e < |Views(s)| && child < |Views(s)| && pn in Views(s)[e] && Views(s)[e][pn].frame < |s.frames|
    && f < |s.frames| && f < |s'.frames| && Unused(VmOf(s), f)
    && Views(s') == SetIn(Views(s), child, pn, Word(f, PTE_U_W_P))
    && KeptBut(VmOf(s), VmOf(s'), f) && s'.frames[f] == s.frames[Views(s)[e][pn].frame]
  }

  lemma OnlyPlace(views: seq<map<nat, Word>>, e: nat, v: nat, w: Word, views': seq<map<nat, Word>>)
    requires e < |views| && views' == SetIn(views, e, v, w) && forall c :: !MapsTo(views, c, w.frame)
    ensures forall c :: MapsTo(views', c, w.frame) ==> c in {Place(e, v)}
  {
    forall c | MapsTo(views', c, w.frame) ensures c in {Place(e, v)} {
      assert !MapsTo(views, c, w.frame);
    }
  }

  lemma CopyComplete(s0: Mem, p0: seq<PageInfo>, h0: int, f0: seq<nat>, s1: Mem, p1: seq<PageInfo>, h1: int,
                     f1: seq<nat>,
                     s2: Mem, s3: Mem, p3: seq<PageInfo>, h3: int, f3: seq<nat>, s4: Mem,
                     v0: seq<map<nat, Word>>, v1: seq<map<nat, Word>>, v2: seq<map<nat, Word>>, e: nat, child: nat,
                         pn: nat)
    requires Calm(s0, p0, h0, f0) && f0 != [] && Calm(s1, p1, h1, f1) && Calm(s3, p3, h3, f3)
    requires |s0.kind| == |s0.frames| && |s1.kind| == |s1.frames| && |s2.kind| == |s2.frames|
             && |s3.kind| == |s3.frames|
    requires |s4.kind| == |s4.frames|
    requires v0 == Views(s0) && v1 == Views(s1) && v2 == Views(s2) == Views(s3)
    requires e < |v0| && child < |v0| && e != child && pn in v0[e] && UTEMP_VPN !in v0[e]
    requires v1 == SetIn(v0, child, pn, Word(f0[0], PTE_U_W_P)) && SameData(s0, s1, set f | f in f0)
    requires v2 == SetIn(v1, e, UTEMP_VPN, Word(f0[0], PTE_U_W_P)) && SameData(s1, s2, set f | f in f1)
    requires f0[0] < |s2.frames| && v0[e][pn].frame < |s2.frames|
    requires s3.frames == s2.frames[f0[0] := s2.frames[v0[e][pn].frame]]
    requires Views(s4) == v2[e := v2[e] - {UTEMP_VPN}] && SameData(s3, s4, set f | f in f3)
    ensures GivenCopy(s0, e, child, pn, f0[0], s4)
  {
    hide Calm, SameData, Views;
    var f, g := f0[0], Views(s0)[e][pn].frame;
    FreeIsUnused(s0, p0, h0, f0, f);
    KeptByCall(s0, p0, h0, f0, s1);
    KeptByCall(s1, p1, h1, f1, s2);
    KeptByCall(s3, p3, h3, f3, s4);
    assert MapsTo(Views(s0), Place(e, pn), g) && MapsTo(Views(s1), Place(e, pn), g);
    assert MapsTo(Views(s3), Place(child, pn), f);
    assert Views(s4)[e] == Views(s0)[e];
    forall c, x: nat | MapsTo(Views(s4), c, x) && x < |s0.frames| && x != f
      ensures s4.frames[x] == s0.frames[x]
    {
      assert MapsTo(Views(s0), c, x) && MapsTo(Views(s1), c, x) && MapsTo(Views(s3), c, x);
    }
  }

  /** duppage of dumbfork: a new page for the child, mapped for a while at UTEMP to be filled. */
  method DupPage(m: PhysMem, t: EnvTable, cur: nat, ghost child: nat, envid: int, pn: nat) returns (ok: bool)
    requires Quiet(m, t) && cur < NENV && t.envs[cur].status != FREE && child < NENV && t.envs[child].status != FREE
             && child != cur
    requires t.Resolves(envid, cur, true) && SlotOf(envid, cur) == child
    requires pn < UTOP_VPN && pn in EnvSpace(m.St(), cur) && UTEMP_VPN !in EnvSpace(m.St(), cur)
    modifies m`freeList, m`free, m`hold, m`limbo, m`kind, m.pages, m.frames
    ensures Quiet(m, t)
    ensures ok ==> old(m.free) != [] && GivenCopy(old(m.St()), cur, child, pn, old(m.free)[0], m.St())
    ensures |old(m.free)| >= 3 ==> ok
    ensures ok ==> |m.free| + 3 >= |old(m.free)|
  {
    hide Inv, Typed, Space, Views, SameData, Undisturbed, EnvList, EnvSpace, GivenCopy, HasTable;
    ghost var s0 := m.St();
    ViewOf(m, t, cur);
    ViewOf(m, t, child);
    OwnId(t, cur);
    var r := SysPageAlloc(m, t, cur, envid, pn * PGSIZE, PTE_U_W_P);
    if r < 0 {
      return false;
    }
    ghost var f := old(m.free)[0];
    ghost var s1, p1, h1, f1 := m.St(), m.pages[..], m.freeList, m.free;
    ViewOf(m, t, cur);
    ViewOf(m, t, child);
    FreeIsUnused(s0, old(m.pages[..]), old(m.freeList), old(m.free), f);
    OnlyPlace(Views(s0), child, pn, Word(f, PTE_U_W_P), Views(s1));
    FewPlaces(m, {Place(child, pn)}, child, pn);
    r := SysPageMap(m, t, cur, envid, pn * PGSIZE, 0, UTEMP, PTE_U_W_P);
    if r < 0 {
      return false;
    }
    ghost var s2 := m.St();
    ViewOf(m, t, cur);
    CopyAcross(m, t, cur, UTEMP_VPN, pn);
    ghost var s3, p3, h3, f3 := m.St(), m.pages[..], m.freeList, m.free;
    ViewOf(m, t, cur);
    r := SysPageUnmap(m, t, cur, 0, UTEMP);
    ViewOf(m, t, cur);
    CopyComplete(s0, old(m.pages[..]), old(m.freeList), old(m.free), s1, p1, h1, f1, s2, s3, p3, h3, f3, m.St(),
                 Views(s0), Views(s1), Views(s2), cur, child, pn);
    ok := true;
  }

  /** One page copied eagerly is one more page in the child's private contents. */
  lemma GivenCopyIsEager(s: Mem, e: nat, child: nat, pn: nat, f: nat, s': Mem)
    requires InRange(VmOf(s)) && Private(VmOf(s)) && GivenCopy(s, e, child, pn, f, s')
    ensures InRange(VmOf(s')) && Private(VmOf(s'))
    ensures Place(e, pn) in Contents(VmOf(s))
    ensures Contents(VmOf(s')) == Contents(VmOf(s))[Place(child, pn) := Contents(VmOf(s))[Place(e, pn)]]
  {
    hide Views;
    Moved(VmOf(s), child, pn, f, Word(f, PTE_U_W_P), VmOf(s'));
    assert Contents(VmOf(s))[Place(e, pn)] == PageAt(VmOf(s), Place(e, pn));
  }

  /** The child's copies of the listed pages, one after the other. */
  ghost function CopyEach(m: Copies, e: nat, child: nat, pages: seq<nat>): Copies {
    if pages == [] then m
    else
      var r := CopyEach(m, e, child, pages[..|pages|-1]);
      var pn := pages[|pages|-1];
      if Place(e, pn) in r then r[Place(child, pn) := r[Place(e, pn)]] else r
  }

  lemma {:induction false} CopyEachIs(m: Copies, e: nat, child: nat, pages: seq<nat>)
    requires e != child
    ensures forall p: Place :: p in CopyEach(m, e, child, pages) <==>
              p in m || (p.env == child && p.vpn in pages && Place(e, p.vpn) in m)
    ensures forall p: Place :: p in CopyEach(m, e, child, pages) ==>
              CopyEach(m, e, child, pages)[p] ==
                if p.env == child && p.vpn in pages && Place(e, p.vpn) in m then m[Place(e, p.vpn)] else m[p]
  {
    if pages != [] {
      var rest, pn := pages[..|pages|-1], pages[|pages|-1];
      CopyEachIs(m, e, child, rest);
      assert pages == rest + [pn];
      assert forall v: nat :: v in pages <==> v in rest || v == pn;
    }
  }

  /** For a program that maps nothing else below the exception stack, dumbfork is the eager fork, up to
      the exception stack that fork gives the child. */
  lemma CopyAllIsEagerFork(m: Copies, e: nat, child: nat, pages: seq<nat>)
    requires e != child && forall v: nat :: v < UXSTACK_VPN && Place(e, v) in m ==> v in pages
    requires forall v: nat :: v in pages ==> v < UXSTACK_VPN
    ensures EagerFork(m, e, child) == CopyEach(m, e, child, pages)[Place(child, UXSTACK_VPN) := Blank()]
  {
    hide CopyEach, EagerCopy;
    var a, b := EagerCopy(m, e, child, UXSTACK_VPN), CopyEach(m, e, child, pages);
    CopyEachIs(m, e, child, pages);
    EagerCopyIs(m, e, child, UXSTACK_VPN);
    assert a == b;
  }

  lemma EagerCopyIs(m: Copies, e: nat, child: nat, n: nat)
    ensures forall p: Place :: p in EagerCopy(m, e, child, n) <==>
              p in m || (p.env == child && p.vpn < n && Place(e, p.vpn) in m)
    ensures forall p: Place :: p in EagerCopy(m, e, child, n) ==>
              EagerCopy(m, e, child, n)[p] ==
                if p.env == child && p.vpn < n && Place(e, p.vpn) in m then m[Place(e, p.vpn)] else m[p]
  {
  }

  function Upto(lo: nat, n: nat): (r: seq<nat>)
    ensures |r| == n && forall i :: 0 <= i < n ==> r[i] == lo + i
  {
    seq(n, i requires 0 <= i < n => lo + i)
  }

  /** Enough of the machine for the next call of duppage: the parent's pages are there, UTEMP is not. */
  ghost predicate Ready(space: map<nat, Word>, lo: nat, n: nat, stack: nat) {
    && UTEMP_VPN !in space && stack in space && stack < UTOP_VPN && lo + n <= UTOP_VPN
    && forall v: nat :: lo <= v < lo + n ==> v in space
  }

  /** The parent's half of dumbfork: the program's pages [lo, lo + n), from UTEXT to its end, and the
      page of the stack it runs on. */
  method DumbFork(m: PhysMem, t: EnvTable, cur: nat, lo: nat, n: nat, stack: nat) returns (out: Outcome)
    requires Quiet(m, t) && cur < NENV && t.envs[cur].status != FREE && Private(VmOf(m.St()))
    requires Ready(EnvSpace(m.St(), cur), lo, n, stack)
    modifies t, t.envs, m`freeList, m`free, m`hold, m`limbo, m`kind, m.pages, m.frames, m.pgdirs
    ensures Quiet(m, t) && InRange(VmOf(old(m.St())))
    ensures old(t.free) != [] && |old(m.free)| >= 3 * n + 4 ==> out.Returned?
    ensures out.Returned? ==>
              && old(t.free) != [] && old(t.free)[0] < NENV
              && var child := old(t.free)[0];
              && out.envid == t.envs[child].id == KthId(t.allocs[child], child) && t.envs[child].status == RUNNABLE
              && t.envs[..] == old(t.envs[..])[child := t.envs[child]]
              && InRange(VmOf(m.St())) && Private(VmOf(m.St()))
              && Contents(VmOf(m.St())) == CopyEach(Contents(VmOf(old(m.St()))), cur, child, Upto(lo, n) + [stack])
  {
    hide Inv, Typed, Space, Views, EnvList, EnvSpace, SameData, SameSpaces, InRange, Private, Contents, CopyEach, Ready;
    ghost var s0 := m.St();
    QuietInRange(m, t);
    EnvListHead(t.envs[..], t.freeList, t.free);
    ViewOf(m, t, cur);
    if t.freeList != NIL {
      NoView(m, t, t.freeList);
    }
    var envid := SysExofork(m, t, cur);
    if envid < 0 {
      return Panicked;
    }
    ghost var child := old(t.free)[0];
    assert Views(m.St()) == Views(s0);
    ViewOf(m, t, cur);
    OwnId(t, child);
    BornQuietly(s0, old(m.pages[..]), old(m.freeList), old(m.free), m.St());
    var ok := CopyPages(m, t, cur, child, envid, lo, n, stack);
    if !ok {
      return Panicked;
    }
    var r := SysEnvSetStatus(t, cur, envid, RUNNABLE);
    out := Returned(envid);
  }

  /** sys_exofork has touched no page in use. */
  lemma BornQuietly(s0: Mem, p0: seq<PageInfo>, h0: int, f0: seq<nat>, s1: Mem)
    requires Calm(s0, p0, h0, f0) && |s0.kind| == |s0.frames| && |s1.kind| == |s1.frames| && f0 != []
    requires SameData(s0, s1, {f0[0]}) && Views(s1) == Views(s0) && InRange(VmOf(s0)) && Private(VmOf(s0))
    ensures InRange(VmOf(s1)) && Private(VmOf(s1)) && Contents(VmOf(s1)) == Contents(VmOf(s0))
  {
    hide Calm, Views, SameData, InRange, Private, Contents;
    SameMore(s0, s1, {f0[0]}, set x | x in f0);
    KeptByCall(s0, p0, h0, f0, s1);
    RefusedStep(VmOf(s0), VmOf(s1));
  }

  /** The loop over the program and the call for the stack. */
  method CopyPages(m: PhysMem, t: EnvTable, cur: nat, ghost child: nat, envid: int, lo: nat, n: nat, stack: nat)
    returns (ok: bool)
    requires Quiet(m, t) && cur < NENV && t.envs[cur].status != FREE
    requires child < NENV && t.envs[child].status != FREE && child != cur
    requires t.Resolves(envid, cur, true) && SlotOf(envid, cur) == child
    requires InRange(VmOf(m.St())) && Private(VmOf(m.St())) && Ready(EnvSpace(m.St(), cur), lo, n, stack)
    modifies m`freeList, m`free, m`hold, m`limbo, m`kind, m.pages, m.frames
    ensures Quiet(m, t)
    ensures |old(m.free)| >= 3 * n + 3 ==> ok
    ensures ok ==>
              && InRange(VmOf(m.St())) && Private(VmOf(m.St()))
              && Contents(VmOf(m.St())) == CopyEach(Contents(VmOf(old(m.St()))), cur, child, Upto(lo, n) + [stack])
  {
    hide Inv, Typed, Space, Views, EnvList, EnvSpace, InRange, Private, Contents;
    ghost var m0, space := Contents(VmOf(m.St())), EnvSpace(m.St(), cur);
    for i := 0 to n
      invariant Quiet(m, t) && InRange(VmOf(m.St())) && Private(VmOf(m.St())) && EnvSpace(m.St(), cur) == space
      invariant Contents(VmOf(m.St())) == CopyEach(m0, cur, child, Upto(lo, i))
      invariant |m.free| + 3 * i >= |old(m.free)|
    {
      ok := CopyOne(m, t, cur, child, envid, lo + i, m0, Upto(lo, i));
      if !ok {
        return;
      }
      assert Upto(lo, i + 1) == Upto(lo, i) + [lo + i];
    }
    ok := CopyOne(m, t, cur, child, envid, stack, m0, Upto(lo, n));
  }

  /** One call of duppage, in terms of private copies. */
  method CopyOne(m: PhysMem, t: EnvTable, cur: nat, ghost child: nat, envid: int, pn: nat, ghost m0: Copies,
                 ghost done: seq<nat>)
    returns (ok: bool)
    requires Quiet(m, t) && cur < NENV && t.envs[cur].status != FREE
    requires child < NENV && t.envs[child].status != FREE && child != cur
    requires t.Resolves(envid, cur, true) && SlotOf(envid, cur) == child
    requires pn < UTOP_VPN && pn in EnvSpace(m.St(), cur) && UTEMP_VPN !in EnvSpace(m.St(), cur)
    requires InRange(VmOf(m.St())) && Private(VmOf(m.St())) && Contents(VmOf(m.St())) == CopyEach(m0, cur, child, done)
    modifies m`freeList, m`free, m`hold, m`limbo, m`kind, m.pages, m.frames
    ensures Quiet(m, t)
    ensures |old(m.free)| >= 3 ==> ok
    ensures ok ==>
              && InRange(VmOf(m.St())) && Private(VmOf(m.St())) && |m.free| + 3 >= |old(m.free)|
              && EnvSpace(m.St(), cur) == old(EnvSpace(m.St(), cur))
              && Contents(VmOf(m.St())) == CopyEach(m0, cur, child, done + [pn])
  {
    hide Inv, Typed, Space, Views, EnvList, EnvSpace, InRange, Private, Contents, GivenCopy;
    ghost var s := m.St();
    ViewOf(m, t, cur);
    ok := DupPage(m, t, cur, child, envid, pn);
    if ok {
      GivenCopyIsEager(s, cur, child, pn, old(m.free)[0], m.St());
      ViewOf(m, t, cur);
      GivenViews(s, cur, child, pn, old(m.free)[0], m.St());
      assert (done + [pn])[..|done|] == done;
    }
  }

  lemma GivenViews(s: Mem, e: nat, child: nat, pn: nat, f: nat, s': Mem)
    requires GivenCopy(s, e, child, pn, f, s') && e != child
    ensures e < |Views(s)| && e < |Views(s')| && Views(s')[e] == Views(s)[e]
  {
    hide Views;
  }
}

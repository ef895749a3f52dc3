/**
  lib/fork.c: duppage and fork over the system calls.  A fork that returns has done to the machine
  exactly what the copy-on-write model's Fork action says, so the theorem about whole runs applies.
*/
module Fork {
  import opened Mmu
  import opened PageRefs
  import opened PageCounts
  import opened Spaces
  import opened Pmap
  import opened EnvIds
  import opened Envs
  import opened Syscalls
  import opened IpcSyscalls
  import opened Mappings
  import opened UserPages
  import Cow

  type View = map<nat, Word>

  /** One page duplicated. */
  function Dup(views: seq<View>, e: nat, child: nat, pn: nat): seq<View>
    requires e < |views| && child < |views| && pn in views[e]
  {
    var w := views[e][pn];
    SetIn(SetIn(views, child, pn, Cow.ChildWord(w)), e, pn, Cow.ParentWord(w))
  }

  /** What duppage leaves at one page, bit by bit: both environments map the old frame for user mode; where
      the parent could write, or the page was copy-on-write already, both map it copy-on-write and neither may
      write; elsewhere the parent's entry stays and the child's is read-only. */
  predicate SharedEntries(was: Word, parent: Word, child: Word) {
    && parent.frame == was.frame == child.frame && child.flags.p && child.flags.u && !child.flags.w
    && (if was.flags.w || was.flags.cow
        then child.flags.cow && parent.flags.p && parent.flags.u && parent.flags.cow && !parent.flags.w
        else !child.flags.cow && parent == was)
  }

  /** The two address spaces after a fork: every page below the exception stack is shared, the child has an
      exception stack of its own, the parent keeps its own, and there is nothing else. */
  ghost predicate ForkedSpaces(space: View, parent: View, child: View) {
    && parent.Keys == space.Keys
    && (forall v :: v in space && v < UXSTACK_VPN ==> v in child && SharedEntries(space[v], parent[v], child[v]))
    && (forall v :: v in space && v >= UXSTACK_VPN ==> parent[v] == space[v])
    && (forall v :: v in child ==> (v in space && v < UXSTACK_VPN) || v == UXSTACK_VPN)
    && UXSTACK_VPN in child && child[UXSTACK_VPN].flags.u && child[UXSTACK_VPN].flags.w
  }

  lemma ForkGivesSpaces(vm: Cow.Vm, e: nat, child: nat, vm': Cow.Vm)
    requires e < |vm.views| && child < |vm.views| && e != child && Cow.Forked(vm, e, child, vm')
    ensures |vm'.views| == |vm.views| && ForkedSpaces(vm.views[e], vm'.views[e], vm'.views[child])
    ensures forall x :: 0 <= x < |vm.views| && x != e && x != child ==> vm'.views[x] == vm.views[x]
  {
    var f: nat :| Cow.ForkStep(vm, e, child, f, vm');
    forall v | v in vm.views[e] && v < UXSTACK_VPN
      ensures v in vm'.views[child] && SharedEntries(vm.views[e][v], vm'.views[e][v], vm'.views[child][v])
    {
      assert Cow.ChildSpace(vm.views[e], UXSTACK_VPN)[v] == Cow.ChildWord(vm.views[e][v]);
    }
  }

  /** Every page mapped before holds what it held. */
  ghost predicate KeptOld(s: Mem, s': Mem) {
    && |s'.frames| == |s.frames|
    && forall c, x: nat :: MapsTo(Views(s), c, x) ==> x < |s.frames| && s'.frames[x] == s.frames[x]
  }

  lemma KeptTwice(s: Mem, s1: Mem, s2: Mem)
    requires KeptOld(s, s1) && KeptOld(s1, s2)
    requires forall c, x: nat :: MapsTo(Views(s), c, x) ==> MapsTo(Views(s1), c, x)
    ensures KeptOld(s, s2)
  {
    hide Views;
  }

  lemma KeptCall(s: Mem, pages: seq<PageInfo>, head: int, free: seq<nat>, s': Mem)
    requires Calm(s, pages, head, free) && |s.kind| == |s.frames| && |s'.kind| == |s'.frames|
    requires SameData(s, s', set f | f in free)
    ensures KeptOld(s, s')
  {
    hide Calm, Views, SameData;
    KeptByCall(s, pages, head, free, s');
  }

  lemma OldRefl(s: Mem)
    requires Typed(s)
    ensures KeptOld(s, s)
  {
    hide Typed, Views;
    VmInRange(s);
    assert Cow.InRange(VmOf(s));
  }

  lemma OnePlaceMore(views: seq<View>, e: nat, child: nat, pn: nat, w: Word, g: nat)
    requires e < |views| && child < |views| && e != child && pn in views[e] && w.frame == g
    ensures forall c :: c in Places(SetIn(views, child, pn, w), g) ==> c in Places(views, g) + {Place(child, pn)}
    ensures |Places(views, g) + {Place(child, pn)}| <= |Places(views, g)| + 1
  {
  }

  /** Each place has been copied at most once. */
  lemma PlacesAtMostDouble(views: seq<View>, e: nat, child: nat, n: nat, g: nat)
    requires e < |views| && child < |views| && e != child && views[child] == map[]
    ensures |Places(Cow.HalfForked(views, e, child, n), g)| <= 2 * |Places(views, g)|
  {
    var a, b := Places(views, g), Places(Cow.HalfForked(views, e, child, n), g);
    var copies := set c | c in a :: Place(child, c.vpn);
    forall c | c in b ensures c in a + copies {
      if c.env == child {
        assert Place(e, c.vpn) in a;
        assert Place(child, c.vpn) in copies;
      } else {
        assert c in a;
      }
    }
    ImageSize(a, copies, child);
    SubsetSize(b, a + copies);
  }

  lemma {:induction false} ImageSize(a: set<Place>, copies: set<Place>, child: nat)
    requires copies == set c | c in a :: Place(child, c.vpn)
    ensures |copies| <= |a|
  {
    if c :| c in a {
      var rest := set x | x in a - {c} :: Place(child, x.vpn);
      ImageSize(a - {c}, rest, child);
      assert copies == rest + {Place(child, c.vpn)};
    }
  }

  /** sys_page_map(sys_getenvid(), addr, dst, addr, perm) with a perm that is not writable. */
  method MapSame(m: PhysMem, t: EnvTable, cur: nat, ghost dst: nat, dstid: int, pn: nat, perm: Flags) returns (ok: bool)
    requires Quiet(m, t) && cur < NENV && t.envs[cur].status != FREE && dst < NENV && t.envs[dst].status != FREE
    requires t.Resolves(dstid, cur, true) && SlotOf(dstid, cur) == dst
    requires perm.ForSyscall() && !perm.w && pn < UTOP_VPN && pn in EnvSpace(m.St(), cur)
    requires |Places(Views(m.St()), EnvSpace(m.St(), cur)[pn].frame)| + 1 < MAXREF
    modifies m`freeList, m`free, m`hold, m`limbo, m`kind, m.pages, m.frames
    ensures Quiet(m, t)
    ensures |old(Views(m.St()))| == NENV == |Views(m.St())| && old(Views(m.St()))[cur] == old(EnvSpace(m.St(), cur))
    ensures ok ==> Views(m.St()) == SetIn(old(Views(m.St())), dst, pn, Word(old(EnvSpace(m.St(), cur))[pn].frame, perm))
    ensures !ok ==> Views(m.St()) == old(Views(m.St()))
    ensures KeptOld(old(m.St()), m.St())
    ensures ok <==> old(m.free) != [] || HasTable(old(m.St()), dst, pn)
    ensures |m.free| + 1 >= |old(m.free)|
  {
    hide Inv, Typed, Space, Views, SameData, Undisturbed, EnvList, EnvSpace, Places;
    ViewOf(m, t, cur);
    OwnId(t, cur);
    FewPlaces(m, Places(Views(m.St()), EnvSpace(m.St(), cur)[pn].frame), cur, pn);
    var r := SysPageMap(m, t, cur, t.envs[cur].id, pn * PGSIZE, dstid, pn * PGSIZE, perm);
    ViewOf(m, t, cur);
    if r != OK {
      FailedCall(old(m.St()), old(m.pages[..]), old(m.freeList), old(m.free), m.St(), m.pages[..]);
    }
    KeptByCall(old(m.St()), old(m.pages[..]), old(m.freeList), old(m.free), m.St());
    ok := r == OK;
  }

  /** duppage: the child's mapping first, then the parent's own, both read-only copy-on-write if the
      page was writable or copy-on-write.  Not ok is its panic. */
  method DupPage(m: PhysMem, t: EnvTable, cur: nat, ghost child: nat, envid: int, pn: nat) returns (ok: bool)
    requires Quiet(m, t) && cur < NENV && t.envs[cur].status != FREE && child < NENV && t.envs[child].status != FREE
             && child != cur
    requires t.Resolves(envid, cur, true) && SlotOf(envid, cur) == child
    requires pn < UTOP_VPN && pn in EnvSpace(m.St(), cur) && pn !in EnvSpace(m.St(), child)
    requires |Places(Views(m.St()), EnvSpace(m.St(), cur)[pn].frame)| + 2 < MAXREF
    modifies m`freeList, m`free, m`hold, m`limbo, m`kind, m.pages, m.frames
    ensures Quiet(m, t)
    ensures |old(Views(m.St()))| == NENV && pn in old(Views(m.St()))[cur]
    ensures ok <==> old(m.free) != [] || HasTable(old(m.St()), child, pn)
    ensures Views(m.St()) == if ok then Dup(old(Views(m.St())), cur, child, pn) else old(Views(m.St()))
    ensures ok ==>
              && |Views(m.St())| == NENV && pn in Views(m.St())[cur] && pn in Views(m.St())[child]
              && SharedEntries(old(Views(m.St()))[cur][pn], Views(m.St())[cur][pn], Views(m.St())[child][pn])
              && forall c: Place :: c != Place(cur, pn) && c != Place(child, pn) && c.env < NENV ==>
                   (c.vpn in Views(m.St())[c.env] <==> c.vpn in old(Views(m.St()))[c.env])
                   && (c.vpn in Views(m.St())[c.env] ==>
                         Views(m.St())[c.env][c.vpn] == old(Views(m.St()))[c.env][c.vpn])
    ensures KeptOld(old(m.St()), m.St())
    ensures |m.free| + 2 >= |old(m.free)|
  {
    hide Inv, Typed, Space, Views, SameData, Undisturbed, EnvList, EnvSpace, Places, Dup, HasTable, KeptOld,
         SharedEntries;
    ghost var s0 := m.St();
    DupEntries(Views(s0), cur, child, pn);
    ViewOf(m, t, cur);
    ViewOf(m, t, child);
    UvptIsKey(m, t, cur, pn);
    var w := Uvpt(m.frames[..], m.pgdirs[cur], pn);
    var perm := if w.flags.w || w.flags.cow then Cow.COW else PTE_U_P;
    DupViews(Views(s0), cur, child, pn);
    ok := MapSame(m, t, cur, child, envid, pn, perm);
    if !ok || !perm.cow {
      return;
    }
    ghost var s1 := m.St();
    ViewOf(m, t, cur);
    OwnId(t, cur);
    MappedHasTable(s1, cur, pn);
    FewEnough(Views(s0), cur, child, pn, w.frame, Views(s1));
    ok := MapSame(m, t, cur, cur, t.envs[cur].id, pn, perm);
    KeptTwice(s0, s1, m.St());
  }

  lemma DupEntries(views: seq<View>, e: nat, child: nat, pn: nat)
    ensures e < |views| && child < |views| && e != child && pn in views[e] ==>
              var views' := Dup(views, e, child, pn);
              && |views'| == |views| && pn in views'[e] && pn in views'[child]
              && SharedEntries(views[e][pn], views'[e][pn], views'[child][pn])
              && forall c: Place :: c != Place(e, pn) && c != Place(child, pn) && c.env < |views| ==>
                   (c.vpn in views'[c.env] <==> c.vpn in views[c.env])
                   && (c.vpn in views'[c.env] ==> views'[c.env][c.vpn] == views[c.env][c.vpn])
  {
  }

  lemma FewEnough(views: seq<View>, e: nat, child: nat, pn: nat, g: nat, views': seq<View>)
    requires e < |views| && child < |views| && e != child && pn in views[e] && views[e][pn].frame == g
    requires views' == SetIn(views, child, pn, Cow.ChildWord(views[e][pn]))
    ensures |Places(views', g)| <= |Places(views, g)| + 1
  {
    OnePlaceMore(views, e, child, pn, Cow.ChildWord(views[e][pn]), g);
    SubsetSize(Places(views', g), Places(views, g) + {Place(child, pn)});
  }

  /** The two system calls of duppage, and the one when the page is read-only. */
  lemma DupViews(views: seq<View>, e: nat, child: nat, pn: nat)
    requires e < |views| && child < |views| && e != child && pn in views[e] && pn !in views[child]
    ensures var w := views[e][pn];
            var views1 := SetIn(views, child, pn, Cow.ChildWord(w));
            && (forall c, x: nat :: MapsTo(views, c, x) ==> MapsTo(views1, c, x))
            && pn in views1[e] && views1[e][pn] == w
            && Dup(views, e, child, pn) ==
                 if w.flags.w || w.flags.cow then SetIn(views1, e, pn, Word(w.frame, Cow.COW)) else views1
  {
    var w := views[e][pn];
    assert !(w.flags.w || w.flags.cow) ==> SetPage(views[e], pn, w) == views[e];
  }

  lemma HalfForkedStep(views: seq<View>, e: nat, child: nat, n: nat)
    requires e < |views| && child < |views| && e != child
    ensures n !in views[e] ==> Cow.HalfForked(views, e, child, n + 1) == Cow.HalfForked(views, e, child, n)
    ensures n in views[e] ==>
              && n in Cow.HalfForked(views, e, child, n)[e] && Cow.HalfForked(views, e, child, n)[e][n] == views[e][n]
              && n !in Cow.HalfForked(views, e, child, n)[child]
              && Cow.HalfForked(views, e, child, n + 1) == Dup(Cow.HalfForked(views, e, child, n), e, child, n)
    ensures n in Cow.HalfForked(views, e, child, n)[e] ==> n in views[e]
  {
    if n in views[e] {
      assert Cow.ChildSpace(views[e], n + 1) == SetPage(Cow.ChildSpace(views[e], n), n, Cow.ChildWord(views[e][n]));
      assert Cow.ParentSpace(views[e], n + 1) == SetPage(Cow.ParentSpace(views[e], n), n, Cow.ParentWord(views[e][n]));
    } else {
      assert Cow.ChildSpace(views[e], n + 1) == Cow.ChildSpace(views[e], n);
      assert Cow.ParentSpace(views[e], n + 1) == Cow.ParentSpace(views[e], n);
    }
  }

  lemma HalfForkedStart(views: seq<View>, e: nat, child: nat)
    requires e < |views| && child < |views| && e != child && views[child] == map[]
    ensures Cow.HalfForked(views, e, child, 0) == views
  {
    assert Cow.ChildSpace(views[e], 0) == map[];
    assert Cow.ParentSpace(views[e], 0) == views[e];
  }

  lemma HalfForkedKeeps(views: seq<View>, e: nat, child: nat, n: nat)
    requires e < |views| && child < |views| && e != child && views[child] == map[]
    ensures forall c, x: nat :: MapsTo(views, c, x) ==> MapsTo(Cow.HalfForked(views, e, child, n), c, x)
  {
  }

  function Below(space: View, n: nat): set<nat> { set v | v in space && v < n }

  lemma BelowStep(space: View, n: nat)
    ensures n in space ==> |Below(space, n + 1)| == |Below(space, n)| + 1
    ensures n !in space ==> Below(space, n + 1) == Below(space, n)
    ensures |Below(space, n)| <= |space|
  {
    if n in space {
      assert Below(space, n + 1) == Below(space, n) + {n};
    }
    SubsetSize(Below(space, n), space.Keys);
  }

  /** The page loop of fork. */
  method DupPages(m: PhysMem, t: EnvTable, cur: nat, ghost child: nat, envid: int) returns (ok: bool, ghost n: nat)
    requires Quiet(m, t) && cur < NENV && t.envs[cur].status != FREE && child < NENV && t.envs[child].status != FREE
             && child != cur
    requires t.Resolves(envid, cur, true) && SlotOf(envid, cur) == child
    requires EnvSpace(m.St(), child) == map[]
    requires forall v :: v in EnvSpace(m.St(), cur) ==>
               2 * |Places(Views(m.St()), EnvSpace(m.St(), cur)[v].frame)| + 2 < MAXREF
    modifies m`freeList, m`free, m`hold, m`limbo, m`kind, m.pages, m.frames
    ensures Quiet(m, t)
    ensures |old(Views(m.St()))| == NENV
    ensures n <= UXSTACK_VPN && (ok ==> n == UXSTACK_VPN)
    ensures Views(m.St()) == Cow.HalfForked(old(Views(m.St())), cur, child, n) && KeptOld(old(m.St()), m.St())
    ensures |old(m.free)| >= 2 * |old(EnvSpace(m.St(), cur))| ==>
              ok && |m.free| + 2 * |old(EnvSpace(m.St(), cur))| >= |old(m.free)|
  {
    hide Inv, Typed, Space, Views, EnvList, EnvSpace, Places, Cow.HalfForked, KeptOld, Below;
    ghost var s0, space := m.St(), EnvSpace(m.St(), cur);
    ghost var views := Views(s0);
    ViewOf(m, t, cur);
    ViewOf(m, t, child);
    HalfForkedStart(views, cur, child);
    InvTyped(s0, m.pages[..], m.freeList, m.free, m.hold, m.limbo);
    OldRefl(s0);
    BelowNone(space);
    for v := 0 to UXSTACK_VPN
      invariant Quiet(m, t)
      invariant Views(m.St()) == Cow.HalfForked(views, cur, child, v) && KeptOld(s0, m.St())
      invariant |m.free| + 2 * |Below(space, v)| >= |old(m.free)|
    {
      BelowStep(space, v);
      BelowStep(space, v + 1);
      ok := DupPageAt(m, t, cur, child, envid, v, views, s0);
      if !ok {
        n := v;
        return;
      }
    }
    n := UXSTACK_VPN;
    BelowStep(space, UXSTACK_VPN);
    ok := true;
  }

  /** One turn of the loop: nothing when page v is not mapped. */
  method DupPageAt(m: PhysMem, t: EnvTable, cur: nat, ghost child: nat, envid: int, v: nat, ghost views: seq<View>,
                   ghost s0: Mem)
    returns (ok: bool)
    requires Quiet(m, t) && cur < NENV && t.envs[cur].status != FREE && child < NENV && t.envs[child].status != FREE
             && child != cur
    requires t.Resolves(envid, cur, true) && SlotOf(envid, cur) == child && v < UXSTACK_VPN
    requires |views| == NENV && Views(s0) == views && views[child] == map[]
    requires Views(m.St()) == Cow.HalfForked(views, cur, child, v) && KeptOld(s0, m.St())
    requires v in views[cur] ==> 2 * |Places(views, views[cur][v].frame)| + 2 < MAXREF
    modifies m`freeList, m`free, m`hold, m`limbo, m`kind, m.pages, m.frames
    ensures Quiet(m, t) && KeptOld(s0, m.St())
    ensures Views(m.St()) == Cow.HalfForked(views, cur, child, if ok then v + 1 else v)
    ensures v !in views[cur] ==> ok && m.free == old(m.free)
    ensures v in views[cur] ==> (old(m.free) != [] ==> ok) && |m.free| + 2 >= |old(m.free)|
  {
    hide Inv, Typed, Space, Views, EnvList, EnvSpace, Places, Cow.HalfForked, KeptOld, Dup, HasTable;
    ghost var s1 := m.St();
    HalfForkedStep(views, cur, child, v);
    ViewOf(m, t, cur);
    ViewOf(m, t, child);
    UvptIsKey(m, t, cur, v);
    ok := true;
    if Present(Uvpt(m.frames[..], m.pgdirs[cur], v)) {
      PlacesAtMostDouble(views, cur, child, v, views[cur][v].frame);
      ok := DupPage(m, t, cur, child, envid, v);
      HalfForkedKeeps(views, cur, child, v);
      KeptTwice(s0, s1, m.St());
    }
  }

  lemma BelowNone(space: View)
    ensures Below(space, 0) == {}
  {
  }

  predicate RoomAt(space: View, pages: seq<PageInfo>, v: nat) {
    v in space && space[v].frame < |pages| ==> 2 * pages[space[v].frame].ref + 2 < MAXREF
  }

  /** Room in the 16-bit counts for every page to be mapped twice as often. */
  ghost predicate RoomToFork(space: View, pages: seq<PageInfo>) { forall v :: v in space ==> RoomAt(space, pages, v) }

  lemma RoomInPlaces(s: Mem, pages: seq<PageInfo>, head: int, free: seq<nat>, e: nat)
    requires Calm(s, pages, head, free) && e < |Views(s)| && RoomToFork(Views(s)[e], pages)
    ensures forall v :: v in Views(s)[e] ==> 2 * |Places(Views(s), Views(s)[e][v].frame)| + 2 < MAXREF
  {
    hide Inv, Views, Places;
    forall v | v in Views(s)[e] ensures 2 * |Places(Views(s), Views(s)[e][v].frame)| + 2 < MAXREF {
      var g := Views(s)[e][v].frame;
      assert RoomAt(Views(s)[e], pages, v);
      assert MapsTo(Views(s), Place(e, v), g);
      MappedInUse(s, pages, head, free, Place(e, v), g);
      RefIsPlaces(s, pages, head, free, g);
    }
  }

  /** The counts are a matter of the mappings alone. */
  lemma RoomKept(s: Mem, pages: seq<PageInfo>, head: int, free: seq<nat>,
                 s': Mem, pages': seq<PageInfo>, head': int, free': seq<nat>, e: nat)
    requires Calm(s, pages, head, free) && Calm(s', pages', head', free') && Views(s') == Views(s) && e < |Views(s)|
    requires RoomToFork(Views(s)[e], pages)
    ensures RoomToFork(Views(s)[e], pages')
  {
    hide Inv, Views, Places;
    forall v | v in Views(s)[e] ensures RoomAt(Views(s)[e], pages', v)
    {
      assert RoomAt(Views(s)[e], pages, v);
      var g := Views(s)[e][v].frame;
      assert MapsTo(Views(s), Place(e, v), g);
      MappedInUse(s, pages, head, free, Place(e, v), g);
      MappedInUse(s', pages', head', free', Place(e, v), g);
      RefIsPlaces(s, pages, head, free, g);
      RefIsPlaces(s', pages', head', free', g);
    }
  }

  /** Creating the child touched no page in use, so forking after it is forking before it. */
  lemma ForkFrom(s0: Mem, p0: seq<PageInfo>, h0: int, f0: seq<nat>, s1: Mem, s2: Mem, e: nat, child: nat)
    requires Calm(s0, p0, h0, f0) && |s0.kind| == |s0.frames| && |s1.kind| == |s1.frames| && f0 != []
    requires SameData(s0, s1, {f0[0]}) && Views(s1) == Views(s0)
    requires e < |Views(s0)| && child < |Views(s0)| && e != child && Views(s0)[child] == map[]
    requires Cow.Forked(VmOf(s1), e, child, VmOf(s2))
    ensures Cow.Forked(VmOf(s0), e, child, VmOf(s2))
  {
    hide Calm, Views, SameData;
    SameMore(s0, s1, {f0[0]}, set x | x in f0);
    KeptByCall(s0, p0, h0, f0, s1);
    var f: nat :| Cow.ForkStep(VmOf(s1), e, child, f, VmOf(s2));
    forall c, x: nat | MapsTo(Views(s2), c, x) && x < |s0.frames| && x != f ensures s2.frames[x] == s0.frames[x] {
      assert MapsTo(Views(s0), if c.env == child then Place(e, c.vpn) else c, x);
    }
    assert forall c :: MapsTo(Views(s0), c, f) <==> MapsTo(Views(s1), c, f);
    assert Cow.ForkStep(VmOf(s0), e, child, f, VmOf(s2));
  }

  /** The parent's half of fork, with its fault handler already registered.  `did` is what it has done to
      the machine: a fork, nothing, or the page loop up to the page for which there was no table. */
  method ForkEnv(m: PhysMem, t: EnvTable, cur: nat) returns (out: Outcome, ghost did: Cow.Op)
    requires Quiet(m, t) && cur < NENV && t.envs[cur].status != FREE
    requires RoomToFork(EnvSpace(m.St(), cur), m.pages[..])
    modifies t, t.envs, m`freeList, m`free, m`hold, m`limbo, m`kind, m.pages, m.frames, m.pgdirs
    ensures Quiet(m, t)
    ensures Cow.Takes(VmOf(old(m.St())), did, VmOf(m.St()))
    ensures old(t.free) == [] ==> out == Returned(-E_NO_FREE_ENV)
    ensures old(t.free) == [] || old(m.free) == [] ==> did == Cow.Refused && out.Returned? && out.envid < 0
    ensures old(t.free) != [] && |old(m.free)| >= 2 * |old(EnvSpace(m.St(), cur))| + 3 ==> Succeeded(out)
    ensures old(t.free) != [] && old(m.free) != [] && !Succeeded(out) ==>
              did.ForkShort? && did.env == cur && did.child == old(t.free)[0] && did.n <= UXSTACK_VPN
    ensures Succeeded(out) ==>
              && old(t.free) != [] && old(t.free)[0] < NENV
              && var child := old(t.free)[0];
              && did == Cow.Fork(cur, child)
              && out.envid == t.envs[child].id == KthId(t.allocs[child], child)
              && t.allocs[child] == old(t.allocs[child]) + 1
              && t.envs[child].status == RUNNABLE && t.envs[child].parent == t.envs[cur].id
              && t.envs[..] == old(t.envs[..])[child := t.envs[child]]
              && ForkedSpaces(old(EnvSpace(m.St(), cur)), EnvSpace(m.St(), cur), EnvSpace(m.St(), child))
              && (forall e :: 0 <= e < NENV && e != cur && e != child ==>
                    EnvSpace(m.St(), e) == old(EnvSpace(m.St(), e)))
              && |m.free| + 2 * |old(EnvSpace(m.St(), cur))| + 3 >= |old(m.free)|
  {
    hide Inv, Typed, Space, Views, EnvList, EnvSpace, Places, KeptOld, SameData, SameSpaces, RoomToFork, Cow.Forked,
         Cow.Shared, KthId, Cow.Takes, ForkedSpaces;
    ghost var s0 := m.St();
    did := Cow.Refused;
    NothingTaken(s0);
    EnvListHead(t.envs[..], t.freeList, t.free);
    ViewOf(m, t, cur);
    if t.freeList != NIL {
      NoView(m, t, t.freeList);
    }
    var envid := SysExofork(m, t, cur);
    if envid < 0 {
      return Returned(envid), did;
    }
    ghost var child := old(t.free)[0];
    assert Views(m.St()) == Views(s0);
    ViewOf(m, t, cur);
    ViewOf(m, t, child);
    RoomKept(s0, old(m.pages[..]), old(m.freeList), old(m.free), m.St(), m.pages[..], m.freeList, m.free, cur);
    ghost var s1 := m.St();
    out, did := ShareWith(m, t, cur, child, envid);
    ForkTaken(s0, old(m.pages[..]), old(m.freeList), old(m.free), s1, m.St(), cur, child, did);
    if Succeeded(out) {
      SpacesForked(s0, s1, m.St(), cur, child);
    }
  }

  lemma SpacesForked(s0: Mem, s1: Mem, s2: Mem, e: nat, child: nat)
    requires |Views(s0)| == NENV && Views(s1) == Views(s0) && e < NENV && child < NENV && e != child
    requires Cow.Forked(VmOf(s1), e, child, VmOf(s2))
    ensures ForkedSpaces(EnvSpace(s0, e), EnvSpace(s2, e), EnvSpace(s2, child))
    ensures forall x :: 0 <= x < NENV && x != e && x != child ==> EnvSpace(s2, x) == EnvSpace(s0, x)
  {
    hide Cow.Forked, ForkedSpaces, EnvSpace;
    ForkGivesSpaces(VmOf(s1), e, child, VmOf(s2));
    forall x: nat | x < NENV ensures Views(s0)[x] == EnvSpace(s0, x) && Views(s2)[x] == EnvSpace(s2, x) {
      ViewIsSpace(s0, x);
      ViewIsSpace(s2, x);
    }
  }

  /** The child's creation and the rest of fork, or its page loop, as one action. */
  lemma ForkTaken(s0: Mem, p0: seq<PageInfo>, h0: int, f0: seq<nat>, s1: Mem, s2: Mem, e: nat, child: nat, did: Cow.Op)
    requires Calm(s0, p0, h0, f0) && |s0.kind| == |s0.frames| && |s1.kind| == |s1.frames| && f0 != []
    requires SameData(s0, s1, {f0[0]}) && Views(s1) == Views(s0)
    requires e < |Views(s0)| && child < |Views(s0)| && e != child && Views(s0)[child] == map[]
    requires || (did == Cow.Fork(e, child) && Cow.Forked(VmOf(s1), e, child, VmOf(s2)))
             || (did.ForkShort? && did.env == e && did.child == child
                 && Cow.Shared(VmOf(s1), e, child, did.n, VmOf(s2)))
    ensures Cow.Takes(VmOf(s0), did, VmOf(s2))
  {
    hide Calm, Views, SameData, Cow.Forked, Cow.Shared;
    if did.Fork? {
      ForkFrom(s0, p0, h0, f0, s1, s2, e, child);
    } else {
      ShareFrom(s0, p0, h0, f0, s1, s2, e, child, did.n);
    }
  }

  /** exofork failed. */
  lemma NothingTaken(s: Mem)
    ensures forall s': Mem :: VmOf(s') == VmOf(s) ==> Cow.Takes(VmOf(s), Cow.Refused, VmOf(s'))
  {
  }

  predicate Succeeded(out: Outcome) { out.Returned? && out.envid >= 0 }

  method ShareWith(m: PhysMem, t: EnvTable, cur: nat, ghost child: nat, envid: int)
    returns (out: Outcome, ghost did: Cow.Op)
    requires Quiet(m, t) && cur < NENV && t.envs[cur].status != FREE && child < NENV && t.envs[child].status != FREE
             && child != cur
    requires envid == t.envs[child].id && t.envs[child].parent == t.envs[cur].id
    requires EnvSpace(m.St(), child) == map[]
    requires RoomToFork(EnvSpace(m.St(), cur), m.pages[..])
    modifies t.envs, m`freeList, m`free, m`hold, m`limbo, m`kind, m.pages, m.frames
    ensures Quiet(m, t) && |old(Views(m.St()))| == NENV
    ensures |old(m.free)| >= 2 * |old(EnvSpace(m.St(), cur))| + 2 ==> Succeeded(out)
    ensures Succeeded(out) ==>
              && out.envid == envid && did == Cow.Fork(cur, child)
              && Cow.Forked(VmOf(old(m.St())), cur, child, VmOf(m.St()))
              && t.envs[..] == old(t.envs[..])[child := old(t.envs[child]).(status := RUNNABLE)]
              && |m.free| + 2 * |old(EnvSpace(m.St(), cur))| + 2 >= |old(m.free)|
    ensures !Succeeded(out) ==>
              && did.ForkShort? && did.env == cur && did.child == child && did.n <= UXSTACK_VPN
              && Cow.Shared(VmOf(old(m.St())), cur, child, did.n, VmOf(m.St()))
  {
    hide Inv, Typed, Space, Views, EnvList, EnvSpace, Places, KeptOld, SameData, Cow.Forked, Cow.Shared, Cow.HalfForked,
         RoomToFork;
    hide Undisturbed, HasTable;
    ghost var s0 := m.St();
    ViewOf(m, t, cur);
    ViewOf(m, t, child);
    OwnId(t, child);
    RoomInPlaces(s0, m.pages[..], m.freeList, m.free, cur);
    ghost var n;
    var ok;
    ok, n := DupPages(m, t, cur, child, envid);
    did := Cow.ForkShort(cur, child, n);
    if !ok {
      ShareComplete(s0, m.St(), cur, child, n);
      return Panicked, did;
    }
    ghost var s1, p1, h1, f1 := m.St(), m.pages[..], m.freeList, m.free;
    ViewOf(m, t, child);
    var r := SysPageAlloc(m, t, cur, envid, UXSTACK_VPN * PGSIZE, PTE_U_W_P);
    ViewOf(m, t, child);
    if r < 0 {
      FailedCall(s1, p1, h1, f1, m.St(), m.pages[..]);
      KeptCall(s1, p1, h1, f1, m.St());
      HalfForkedKeeps(Views(s0), cur, child, n);
      KeptTwice(s0, s1, m.St());
      ShareComplete(s0, m.St(), cur, child, n);
      return Returned(r), did;
    }
    ForkComplete(s0, s1, p1, h1, f1, m.St(), cur, child);
    r := SysEnvSetStatus(t, cur, envid, RUNNABLE);
    out, did := Returned(envid), Cow.Fork(cur, child);
  }

  /** The page loop is a step of the copy-on-write model however far it gets. */
  lemma ShareComplete(s0: Mem, s: Mem, e: nat, child: nat, n: nat)
    requires e < |Views(s0)| && child < |Views(s0)| && e != child && Views(s0)[child] == map[]
    requires Views(s) == Cow.HalfForked(Views(s0), e, child, n) && KeptOld(s0, s)
    ensures Cow.Shared(VmOf(s0), e, child, n, VmOf(s))
  {
    hide Views, Cow.HalfForked;
    forall c, x: nat | MapsTo(Views(s), c, x) && x < |s0.frames| ensures s.frames[x] == s0.frames[x] {
      Cow.SharedOrigin(VmOf(s0), e, child, n, VmOf(s), c);
      assert MapsTo(Views(s0), Cow.Origin(c, e, child), x);
    }
  }

  /** Likewise when the loop runs after the child has been created. */
  lemma ShareFrom(s0: Mem, p0: seq<PageInfo>, h0: int, f0: seq<nat>, s1: Mem, s2: Mem, e: nat, child: nat, n: nat)
    requires Calm(s0, p0, h0, f0) && |s0.kind| == |s0.frames| && |s1.kind| == |s1.frames| && f0 != []
    requires SameData(s0, s1, {f0[0]}) && Views(s1) == Views(s0)
    requires e < |Views(s0)| && child < |Views(s0)| && e != child && Views(s0)[child] == map[]
    requires Cow.Shared(VmOf(s1), e, child, n, VmOf(s2))
    ensures Cow.Shared(VmOf(s0), e, child, n, VmOf(s2))
  {
    hide Calm, Views, SameData, Cow.HalfForked;
    SameMore(s0, s1, {f0[0]}, set x | x in f0);
    KeptByCall(s0, p0, h0, f0, s1);
    forall c, x: nat | MapsTo(Views(s2), c, x) && x < |s0.frames| ensures s2.frames[x] == s0.frames[x] {
      Cow.SharedOrigin(VmOf(s1), e, child, n, VmOf(s2), c);
      assert MapsTo(Views(s0), Cow.Origin(c, e, child), x);
    }
  }

  /** The child's exception stack goes into a page nobody used, before or during the fork. */
  lemma ForkComplete(s0: Mem, s1: Mem, p1: seq<PageInfo>, h1: int, f1: seq<nat>, s2: Mem, e: nat, child: nat)
    requires e < |Views(s0)| && child < |Views(s0)| && e != child && Views(s0)[child] == map[]
    requires Calm(s1, p1, h1, f1) && |s1.kind| == |s1.frames| && |s2.kind| == |s2.frames| && f1 != []
    requires Views(s1) == Cow.HalfForked(Views(s0), e, child, UXSTACK_VPN) && KeptOld(s0, s1)
    requires SetKey(Views(s1), child, UXSTACK_VPN, Word(f1[0], PTE_U_W_P), Views(s2))
             && SameData(s1, s2, set f | f in f1)
    requires f1[0] < |s2.frames| && s2.frames[f1[0]] == ZEROPAGE
    ensures Cow.Forked(VmOf(s0), e, child, VmOf(s2))
  {
    hide Calm, Views, SameData;
    var f := f1[0];
    KeptByCall(s1, p1, h1, f1, s2);
    FreeIsUnused(s1, p1, h1, f1, f);
    HalfForkedKeeps(Views(s0), e, child, UXSTACK_VPN);
    forall c, x: nat | MapsTo(Views(s2), c, x) && x < |s0.frames| && x != f ensures s2.frames[x] == s0.frames[x] {
      assert MapsTo(Views(s1), c, x);
      assert MapsTo(Views(s0), if c.env == child then Place(e, c.vpn) else c, x);
    }
    assert Cow.Unused(VmOf(s0), f) by {
      forall c ensures !MapsTo(Views(s0), c, f) {
        assert !MapsTo(Views(s1), c, f);
      }
    }
    assert Cow.ForkStep(VmOf(s0), e, child, f, VmOf(s2));
  }
}

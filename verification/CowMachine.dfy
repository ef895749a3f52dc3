/**
  User programs on the kernel: any list of loads, stores, allocations, unmappings, forks and exits by any
  environments, run by the system calls and lib/fork.c, reads what it would read with private copies, outside
  the words that page faults themselves write.
*/
module CowMachine {
  import opened Mmu
  import opened PageRefs
  import opened Spaces
  import opened Pmap
  import opened EnvIds
  import opened Envs
  import opened Syscalls
  import opened Mappings
  import opened UserPages
  import opened UserFaults
  import opened Cow
  import opened CowMarks
  import Fork

  // ---------------------------------------------------------------- single system calls as actions

  lemma AllocIsStep(s: Mem, pages: seq<PageInfo>, head: int, free: seq<nat>, s': Mem, e: nat, v: nat, perm: Flags)
    requires Calm(s, pages, head, free) && |s.kind| == |s.frames| && |s'.kind| == |s'.frames| && free != []
    requires SetKey(Views(s), e, v, Word(free[0], perm), Views(s')) && SameData(s, s', set f | f in free)
    requires free[0] < |s'.frames| && s'.frames[free[0]] == ZEROPAGE
    ensures Takes(VmOf(s), Alloc(e, v, perm), VmOf(s'))
  {
    hide Calm, Views, SameData;
    var f := free[0];
    FreeIsUnused(s, pages, head, free, f);
    KeptByCall(s, pages, head, free, s');
    forall c, x: nat | MapsTo(Views(s'), c, x) && x < |s.frames| && x != f ensures s'.frames[x] == s.frames[x] {
      assert MapsTo(Views(s), c, x);
    }
    assert AllocStep(VmOf(s), e, v, perm, f, VmOf(s'));
  }

  lemma UnmapIsStep(s: Mem, pages: seq<PageInfo>, head: int, free: seq<nat>, s': Mem, e: nat, v: nat)
    requires Calm(s, pages, head, free) && |s.kind| == |s.frames| && |s'.kind| == |s'.frames|
    requires e < |Views(s)| && Views(s') == Views(s)[e := Views(s)[e] - {v}] && SameData(s, s', set f | f in free)
    ensures Takes(VmOf(s), Unmap(e, v), VmOf(s'))
  {
    hide Calm, Views, SameData;
    KeptByCall(s, pages, head, free, s');
    forall c, x: nat | MapsTo(Views(s'), c, x) && x < |s.frames| ensures s'.frames[x] == s.frames[x] {
      assert MapsTo(Views(s), c, x);
    }
  }

  /** A failed system call is an action without effect. */
  lemma FailedIsRefused(s: Mem, pages: seq<PageInfo>, head: int, free: seq<nat>, s': Mem, pages': seq<PageInfo>)
    requires Calm(s, pages, head, free) && Undisturbed(s, pages, free, s', pages') && s'.roots == s.roots
    requires |s.kind| == |s.frames| && |s'.kind| == |s'.frames|
    ensures Takes(VmOf(s), Refused, VmOf(s'))
  {
    hide Calm, Views, Undisturbed, KeptMapped, Takes;
    FailedCall(s, pages, head, free, s', pages');
    RefusedTaken(s, s');
  }

  // ---------------------------------------------------------------- any action

  predicate InUse(t: EnvTable, e: nat)
    reads t, t.envs
  {
    e < t.envs.Length && t.envs[e].status != FREE
  }

  /** What is enough for an action to go through: the program may take it and there is memory left. */
  ghost predicate Granted(m: PhysMem, t: EnvTable, op: Op, trap: Trap)
    requires Quiet(m, t)
    reads m, m.pages, m.frames, m.pgdirs, t, t.envs
  {
    match op
    case Read(e, v, off) => off < NENTRIES && v in EnvSpace(m.St(), e) && ForUser(EnvSpace(m.St(), e), v)
    case Write(e, v, off, _) =>
      && off < NENTRIES && v in EnvSpace(m.St(), e) && ForUser(EnvSpace(m.St(), e), v)
      && (Writable(EnvSpace(m.St(), e), v) ||
          (Smooth(EnvSpace(m.St(), e), m.free, v, trap) && ForUser(EnvSpace(m.St(), e), SpareVpn(trap))))
    case Alloc(e, v, perm) =>
      && InUse(t, e) && v < UTOP_VPN && perm.ForSyscall()
      && m.free != [] && (|m.free| == 1 ==> HasTable(m.St(), e, v))
    case Unmap(e, v) => InUse(t, e) && v < UTOP_VPN
    case Fork(e, c) =>
      && InUse(t, e) && t.free != [] && t.free[0] == c && Fork.RoomToFork(EnvSpace(m.St(), e), m.pages[..])
      && |m.free| >= 2 * |EnvSpace(m.St(), e)| + 3
    case Exit(e) => InUse(t, e)
    case _ => op.Refused?
  }

  /** Only environments in use map anything, and only user pages. */
  lemma EnabledInUse(m: PhysMem, t: EnvTable, e: nat, v: nat)
    requires Quiet(m, t) && v in EnvSpace(m.St(), e)
    ensures e < NENV && t.envs[e].status != FREE && v < UTOP_VPN && At(VmOf(m.St()), e, v)
  {
    hide Inv, Typed;
  }

  /** A load or a store is an action here if user mode may use the page, and a fault finds the exception stack
      with room for its frame, and PFTEMP free. */
  method MayFault(m: PhysMem, t: EnvTable, e: nat, trap: Trap) returns (r: bool)
    requires Quiet(m, t) && e < NENV && t.envs[e].status != FREE
    ensures r <==>
              && WellFormed(trap) && PFTEMP_VPN !in EnvSpace(m.St(), e)
              && ForUser(EnvSpace(m.St(), e), SpareVpn(trap))
  {
    hide Inv, Typed, Space, EnvSpace;
    if !WellFormed(trap) {
      return false;
    }
    var temp := EntryOf(m, t, e, PFTEMP_VPN);
    r := !Present(temp);
    SpaceKeys(m.St(), e);
    if SpareVpn(trap) < UTOP_VPN {
      var spare := EntryOf(m, t, e, SpareVpn(trap));
      r := r && (!Present(spare) || spare.flags.u);
    }
  }

  method DoRead(m: PhysMem, t: EnvTable, e: nat, v: nat, off: nat, trap: Trap)
    returns (ok: bool, x: Word, ghost aside: seq<Op>, ghost did: Op)
    requires Quiet(m, t)
    modifies t, t.envs, m`freeList, m`free, m`hold, m`limbo, m`kind, m.pages, m.frames, m.pgdirs
    ensures Quiet(m, t) && Leads(VmOf(old(m.St())), aside + [did], VmOf(m.St()))
    ensures Came(Read(e, v, off), trap, ok, aside, did)
    ensures ok ==> Enabled(VmOf(old(m.St())), did) && x == Seen(VmOf(old(m.St())), did)
    ensures old(Granted(m, t, Read(e, v, off), trap)) ==> ok
    ensures !ok ==> x == NOTHING
  {
    hide Inv, Typed, Space, EnvSpace, Views, EnvList, Leads, Ends, SideOf;
    NothingLeads(m.St());
    ok, x, aside, did := false, NOTHING, [], Refused;
    if v in EnvSpace(m.St(), e) {
      EnabledInUse(m, t, e, v);
    }
    if e >= NENV || t.envs[e].status == FREE || v >= UTOP_VPN || off >= NENTRIES {
      return;
    }
    var w := EntryOf(m, t, e, v);
    var may := MayFault(m, t, e, trap);
    if if Present(w) then !w.flags.u else !may {
      return;
    }
    ok, x, aside, did := UserRead(m, t, e, v, off, trap);
    if !ok {
      EndsSides(old(EnvSpace(m.St(), e)), Read(e, v, off), trap, ok, aside, did);
    }
  }

  method DoWrite(m: PhysMem, t: EnvTable, e: nat, v: nat, off: nat, x: Word, trap: Trap)
    returns (ok: bool, ghost aside: seq<Op>, ghost did: Op)
    requires Quiet(m, t)
    modifies t, t.envs, m`freeList, m`free, m`hold, m`limbo, m`kind, m.pages, m.frames, m.pgdirs
    ensures Quiet(m, t) && Leads(VmOf(old(m.St())), aside + [did], VmOf(m.St()))
    ensures Came(Write(e, v, off, x), trap, ok, aside, did)
    ensures old(Granted(m, t, Write(e, v, off, x), trap)) ==> ok
  {
    hide Inv, Typed, Space, EnvSpace, Views, EnvList, Leads, NoTempPage, Smooth, Ends, SideOf, SpareServed, Served;
    NothingLeads(m.St());
    ok, aside, did := false, [], Refused;
    if v in EnvSpace(m.St(), e) {
      EnabledInUse(m, t, e, v);
    }
    if e >= NENV || t.envs[e].status == FREE || v >= UTOP_VPN || off >= NENTRIES {
      return;
    }
    var w := EntryOf(m, t, e, v);
    var may := MayFault(m, t, e, trap);
    SmoothMay(EnvSpace(m.St(), e), m.free, v, trap);
    if (Present(w) && !w.flags.u) || !((Present(w) && w.flags.w) || may) {
      return;
    }
    ghost var mid, midFree;
    ok, aside, did, mid, midFree := UserWrite(m, t, e, v, off, x, trap);
    if !(Present(w) && w.flags.w) {
      EndsSides(old(EnvSpace(m.St(), e)), Write(e, v, off, x), trap, ok, aside, did);
    }
  }

  lemma SmoothMay(space: map<nat, Word>, free: seq<nat>, v: nat, trap: Trap)
    ensures Smooth(space, free, v, trap) ==> WellFormed(trap) && PFTEMP_VPN !in space
  {
  }

  lemma NothingLeads(s: Mem)
    ensures Leads(VmOf(s), [] + [Refused], VmOf(s))
  {
    NothingIsRefused(s);
    LeadsOne(VmOf(s), Refused, VmOf(s));
    assert [] + [Refused] == [Refused];
  }

  /** What a load or store comes to: itself, or the end of its environment, or nothing more than asides of
      its fault. */
  ghost predicate Came(op: Op, trap: Trap, ok: bool, aside: seq<Op>, did: Op)
    requires op.Read? || op.Write?
  {
    && (if ok then did == op else did == Refused || did == Exit(op.env))
    && Sides(op, trap, aside) && (ok && op.Read? ==> aside == [])
  }

  /** The asides of an action: only a load or a store has any, and they are those of its fault. */
  predicate Sides(op: Op, trap: Trap, aside: seq<Op>) {
    aside == [] ||
    ((op.Read? || op.Write?) && WellFormed(trap)
     && forall i :: 0 <= i < |aside| ==> SideOf(op.env, FaultVa(op.vpn, op.off), trap, aside[i]))
  }

  /** A fault leaves only its own asides. */
  lemma EndsSides(space: map<nat, Word>, op: Op, trap: Trap, ok: bool, aside: seq<Op>, end: Op)
    requires (op.Read? || op.Write?) && WellFormed(trap)
    ensures Ends(space, op.env, op.vpn, op.off, trap, ok, aside, end) ==> Sides(op, trap, aside)
    ensures Ends(space, op.env, op.vpn, op.off, trap, ok, aside, end) && !ok ==> end == Refused || end == Exit(op.env)
  {
  }

  predicate SideOf(e: nat, va: nat, trap: Trap, x: Op)
    requires WellFormed(trap)
  {
    match x
    case Fill(f, n, page) => f == e && n == Top(trap.esp) && page == LeftPage(va, trap)
    case Copy(f, _) => f == e
    case Write(f, v, off, w) => f == e && v == SpareVpn(trap) && off == SpareOff(trap) && w == trap.eip
    case _ => false
  }

  method DoAlloc(m: PhysMem, t: EnvTable, e: nat, v: nat, perm: Flags) returns (ok: bool)
    requires Quiet(m, t)
    modifies m`freeList, m`free, m`hold, m`limbo, m`kind, m.pages, m.frames
    ensures Quiet(m, t)
    ensures Takes(VmOf(old(m.St())), if ok then Alloc(e, v, perm) else Refused, VmOf(m.St()))
    ensures forall trap :: old(Granted(m, t, Alloc(e, v, perm), trap)) ==> ok
  {
    hide Inv, Typed, Space, EnvSpace, Views, EnvList, Takes, SameData, Undisturbed, HasTable;
    ghost var s := m.St();
    NothingIsRefused(s);
    if e >= NENV || t.envs[e].status == FREE || v >= UTOP_VPN {
      return false;
    }
    ViewOf(m, t, e);
    OwnId(t, e);
    var r := SysPageAlloc(m, t, e, t.envs[e].id, v * PGSIZE, perm);
    ok := r == OK;
    ViewOf(m, t, e);
    if ok {
      AllocIsStep(s, old(m.pages[..]), old(m.freeList), old(m.free), m.St(), e, v, perm);
    } else {
      FailedIsRefused(s, old(m.pages[..]), old(m.freeList), old(m.free), m.St(), m.pages[..]);
    }
  }

  method DoUnmap(m: PhysMem, t: EnvTable, e: nat, v: nat) returns (ok: bool)
    requires Quiet(m, t)
    modifies m`freeList, m`free, m`hold, m`limbo, m`kind, m.pages, m.frames
    ensures Quiet(m, t)
    ensures Takes(VmOf(old(m.St())), if ok then Unmap(e, v) else Refused, VmOf(m.St()))
    ensures forall trap :: old(Granted(m, t, Unmap(e, v), trap)) ==> ok
  {
    hide Inv, Typed, Space, EnvSpace, Views, EnvList, Takes, SameData;
    ghost var s := m.St();
    NothingIsRefused(s);
    if e >= NENV || t.envs[e].status == FREE || v >= UTOP_VPN {
      return false;
    }
    ViewOf(m, t, e);
    OwnId(t, e);
    var r := SysPageUnmap(m, t, e, t.envs[e].id, v * PGSIZE);
    ok := r == OK;
    ViewOf(m, t, e);
    UnmapIsStep(s, old(m.pages[..]), old(m.freeList), old(m.free), m.St(), e, v);
  }

  /** The 16-bit counts leave room for the child's mappings. */
  method HasRoom(m: PhysMem, t: EnvTable, e: nat) returns (r: bool)
    requires Quiet(m, t) && e < NENV && t.envs[e].status != FREE
    ensures r == Fork.RoomToFork(EnvSpace(m.St(), e), m.pages[..])
  {
    hide Quiet, EnvSpace, Fork.RoomAt, Fork.RoomToFork;
    ghost var space := EnvSpace(m.St(), e);
    r := true;
    for v := 0 to UTOP_VPN
      invariant !r ==> !Fork.RoomToFork(space, m.pages[..])
      invariant r ==> RoomBelow(space, m.pages[..], v)
    {
      var fits := HasRoomAt(m, t, e, v);
      RoomNext(space, m.pages[..], v);
      r := r && fits;
    }
    RoomEverywhere(m.St(), e, m.pages[..]);
  }

  /** Room for the pages below n. */
  ghost predicate RoomBelow(space: map<nat, Word>, pages: seq<PageInfo>, n: nat) {
    forall u: nat :: u < n && u in space ==> Fork.RoomAt(space, pages, u)
  }

  lemma RoomNext(space: map<nat, Word>, pages: seq<PageInfo>, v: nat)
    ensures RoomBelow(space, pages, v) && (v in space ==> Fork.RoomAt(space, pages, v)) ==>
              RoomBelow(space, pages, v + 1)
    ensures v in space && !Fork.RoomAt(space, pages, v) ==> !Fork.RoomToFork(space, pages)
  {
  }

  lemma RoomEverywhere(s: Mem, e: nat, pages: seq<PageInfo>)
    ensures RoomBelow(EnvSpace(s, e), pages, UTOP_VPN) ==> Fork.RoomToFork(EnvSpace(s, e), pages)
  {
    assert forall u :: u in EnvSpace(s, e) ==> 0 <= u < UTOP_VPN;
  }

  method HasRoomAt(m: PhysMem, t: EnvTable, e: nat, v: nat) returns (r: bool)
    requires Quiet(m, t) && e < NENV && t.envs[e].status != FREE && v < UTOP_VPN
    ensures v in EnvSpace(m.St(), e) ==> r == Fork.RoomAt(EnvSpace(m.St(), e), m.pages[..], v)
    ensures v !in EnvSpace(m.St(), e) ==> r
  {
    hide Inv, Typed, Space, EnvSpace;
    ViewOf(m, t, e);
    UvptIsKey(m, t, e, v);
    var w := Uvpt(m.frames[..], m.pgdirs[e], v);
    r := !Present(w) || w.frame >= m.pages.Length || 2 * m.pages[w.frame].ref + 2 < MAXREF;
  }

  method DoFork(m: PhysMem, t: EnvTable, e: nat, child: nat) returns (ok: bool, ghost did: Op)
    requires Quiet(m, t)
    modifies t, t.envs, m`freeList, m`free, m`hold, m`limbo, m`kind, m.pages, m.frames, m.pgdirs
    ensures Quiet(m, t)
    ensures Takes(VmOf(old(m.St())), did, VmOf(m.St()))
    ensures ok <==> did == Cow.Fork(e, child)
    ensures ok ==>
              && old(InUse(t, e)) && e != child && InUse(t, e) && InUse(t, child)
              && Fork.ForkedSpaces(old(EnvSpace(m.St(), e)), EnvSpace(m.St(), e), EnvSpace(m.St(), child))
              && |m.free| + 2 * |old(EnvSpace(m.St(), e))| + 3 >= |old(m.free)|
    ensures !ok ==> did == Refused || (did.ForkShort? && did.env == e && did.child == child)
    ensures forall trap :: old(Granted(m, t, Cow.Fork(e, child), trap)) ==> ok
  {
    hide Inv, Typed, Space, EnvSpace, Views, EnvList, Takes, Fork.RoomToFork;
    NothingIsRefused(m.St());
    did := Refused;
    EnvListHead(t.envs[..], t.freeList, t.free);
    if e >= NENV || t.envs[e].status == FREE || t.freeList != child {
      return false, did;
    }
    var room := HasRoom(m, t, e);
    if !room {
      return false, did;
    }
    var out;
    out, did := Fork.ForkEnv(m, t, e);
    ok := out.Returned? && out.envid >= 0;
  }

  /** A store that a program can make to page v, in place or by a fault that comes back. */
  predicate MayStore(space: map<nat, Word>, v: nat) { v in space && (space[v].flags.w || space[v].flags.cow) }

  /** What a store needs: a page the program may store to, and where the fault can put the return address. */
  predicate StoreReady(space: map<nat, Word>, v: nat, trap: Trap) {
    && MayStore(space, v) && WellFormed(trap) && ComesBack(trap)
    && (SpareVpn(trap) == UXSTACK_VPN || (SpareVpn(trap) < UXSTACK_VPN && MayStore(space, SpareVpn(trap))))
    && UXSTACK_VPN in space && space[UXSTACK_VPN].flags.u && space[UXSTACK_VPN].flags.w && PFTEMP_VPN !in space
  }

  /** After a fork both programs can still store wherever the parent could. */
  lemma StillReady(space: map<nat, Word>, parent: map<nat, Word>, child: map<nat, Word>, free: seq<nat>, v: nat,
                   trap: Trap)
    requires StoreReady(space, v, trap) && v < UXSTACK_VPN && |free| >= 5 && Fork.ForkedSpaces(space, parent, child)
    ensures Smooth(parent, free, v, trap) && ForUser(parent, v) && ForUser(parent, SpareVpn(trap))
    ensures Smooth(child, free, v, trap) && ForUser(child, v) && ForUser(child, SpareVpn(trap))
  {
    assert Fork.SharedEntries(space[v], parent[v], child[v]);
    if SpareVpn(trap) != UXSTACK_VPN {
      assert Fork.SharedEntries(space[SpareVpn(trap)], parent[SpareVpn(trap)], child[SpareVpn(trap)]);
    }
  }

  /** A fork, and then a store by the parent or by the child to a page to which the parent could store before:
      with memory enough it succeeds. */
  method ForkThenStore(m: PhysMem, t: EnvTable, e: nat, child: nat, who: nat, v: nat, off: nat, x: Word, trap: Trap)
    returns (ok: bool)
    requires Quiet(m, t) && InUse(t, e) && t.free != [] && t.free[0] == child && (who == e || who == child)
    requires Fork.RoomToFork(EnvSpace(m.St(), e), m.pages[..]) && |m.free| >= 2 * |EnvSpace(m.St(), e)| + 8
    requires StoreReady(EnvSpace(m.St(), e), v, trap) && v < UXSTACK_VPN && off < NENTRIES
    modifies t, t.envs, m`freeList, m`free, m`hold, m`limbo, m`kind, m.pages, m.frames, m.pgdirs
    ensures Quiet(m, t) && ok
  {
    hide Inv, Typed, Space, EnvSpace, Views, EnvList, Leads, Takes, Fork.RoomToFork, Fork.ForkedSpaces, StoreReady,
         Smooth;
    ghost var space := EnvSpace(m.St(), e);
    ghost var did, aside;
    assert Granted(m, t, Cow.Fork(e, child), trap);
    ok, did := DoFork(m, t, e, child);
    StillReady(space, EnvSpace(m.St(), e), EnvSpace(m.St(), child), m.free, v, trap);
    SmoothMapped(EnvSpace(m.St(), who), m.free, v, trap);
    ok, aside, did := DoWrite(m, t, who, v, off, x, trap);
  }

  lemma SmoothMapped(space: map<nat, Word>, free: seq<nat>, v: nat, trap: Trap)
    requires Smooth(space, free, v, trap)
    ensures v in space && trap.esp >= 4
  {
  }

  /** An environment that destroys itself. */
  method DoExit(m: PhysMem, t: EnvTable, e: nat) returns (ok: bool)
    requires Quiet(m, t)
    modifies t, t.envs, m`freeList, m`free, m`hold, m`limbo, m`kind, m.pages, m.frames, m.pgdirs
    ensures Quiet(m, t)
    ensures Takes(VmOf(old(m.St())), if ok then Exit(e) else Refused, VmOf(m.St()))
    ensures ok <==> old(InUse(t, e))
  {
    hide Inv, Typed, Space, EnvSpace, Views, EnvList, Takes;
    NothingIsRefused(m.St());
    if e >= NENV || t.envs[e].status == FREE {
      return false;
    }
    Destroy(m, t, e);
    ok := true;
  }

  /** The actions of a program. */
  predicate OfProgram(op: Op) { !op.ForkShort? && !op.Copy? && !op.Fill? }

  /** What an action turns into: itself, nothing, for a fork its page loop up to some page, for a fault without
      an exception stack the end of the environment. */
  ghost predicate TurnsInto(op: Op, did: Op) {
    || did == op || did == Refused
    || (op.Fork? && did.ForkShort? && did.env == op.env && did.child == op.child)
    || ((op.Read? || op.Write?) && did == Exit(op.env))
  }

  /** One action; not ok when a program may not take it or the kernel runs out of something. */
  method Perform(m: PhysMem, t: EnvTable, op: Op, trap: Trap)
    returns (ok: bool, x: Word, ghost aside: seq<Op>, ghost did: Op)
    requires Quiet(m, t) && OfProgram(op)
    modifies t, t.envs, m`freeList, m`free, m`hold, m`limbo, m`kind, m.pages, m.frames, m.pgdirs
    ensures Quiet(m, t)
    ensures Leads(VmOf(old(m.St())), aside + [did], VmOf(m.St()))
    ensures TurnsInto(op, did) && (ok <==> did == op) && Sides(op, trap, aside)
    ensures did.Read? ==> aside == [] && Enabled(VmOf(old(m.St())), did) && x == Seen(VmOf(old(m.St())), did)
    ensures !did.Read? ==> x == NOTHING
    ensures old(Granted(m, t, op, trap)) ==> ok
  {
    hide Quiet, VmOf, Takes, Leads, Granted, Sides, Seen, Enabled;
    ghost var vm := VmOf(m.St());
    x, aside, did := NOTHING, [], op;
    if op.Read? {
      ok, x, aside, did := DoRead(m, t, op.env, op.vpn, op.off, trap);
      return;
    }
    if op.Write? {
      ok, aside, did := DoWrite(m, t, op.env, op.vpn, op.off, op.x, trap);
      return;
    }
    NoSides(op, trap);
    ok, did := DoCall(m, t, op, trap);
    LeadsOne(vm, did, VmOf(m.St()));
    assert [] + [did] == [did];
  }

  lemma NoSides(op: Op, trap: Trap)
    ensures Sides(op, trap, [])
  {
  }

  /** The actions that are system calls. */
  method DoCall(m: PhysMem, t: EnvTable, op: Op, ghost trap: Trap) returns (ok: bool, ghost did: Op)
    requires Quiet(m, t) && OfProgram(op) && !op.Read? && !op.Write?
    modifies t, t.envs, m`freeList, m`free, m`hold, m`limbo, m`kind, m.pages, m.frames, m.pgdirs
    ensures Quiet(m, t)
    ensures Takes(VmOf(old(m.St())), did, VmOf(m.St()))
    ensures TurnsInto(op, did) && (ok <==> did == op) && !did.Read?
    ensures old(Granted(m, t, op, trap)) ==> ok
  {
    hide Quiet, VmOf, Takes;
    NothingIsRefused(m.St());
    did := op;
    match op {
      case Alloc(e, v, perm) => ok := DoAlloc(m, t, e, v, perm);
      case Unmap(e, v) => ok := DoUnmap(m, t, e, v);
      case Fork(e, c) => ok, did := DoFork(m, t, e, c);
      case Exit(e) => ok := DoExit(m, t, e);
      case Refused => ok := true;
    }
    if !ok && !op.Fork? {
      did := Refused;
    }
  }

  /** Everything the programs read is what they would read if every environment had its own copy of every page
      and the faults wrote their asides there, whatever is refused on the way; and outside the words that
      asides have marked it is what they would read without any faults.  A refused action has no effect but
      the asides of its fault; a fork which runs out of page tables leaves its child with the pages below some
      page number. */
  method Execute(m: PhysMem, t: EnvTable, ops: seq<Op>, traps: seq<Trap>)
    returns (seen: seq<Word>, oks: seq<bool>, ghost asides: seq<seq<Op>>, ghost did: seq<Op>)
    requires Quiet(m, t) && Private(VmOf(m.St())) && |traps| == |ops|
    requires forall i :: 0 <= i < |ops| ==> OfProgram(ops[i])
    modifies t, t.envs, m`freeList, m`free, m`hold, m`limbo, m`kind, m.pages, m.frames, m.pgdirs
    ensures Quiet(m, t) && |seen| == |oks| == |asides| == |did| == |ops| && InRange(VmOf(old(m.St())))
    ensures forall i :: 0 <= i < |ops| ==>
              TurnsInto(ops[i], did[i]) && (oks[i] <==> did[i] == ops[i]) && Sides(ops[i], traps[i], asides[i])
    ensures forall i :: 0 <= i < |ops| ==>
              seen[i] == EagerSeen(EagerRun(Contents(VmOf(old(m.St()))), Joined(asides[..i], did[..i])), did[i])
    ensures forall i :: 0 <= i < |ops| && Unmarked(did[i], asides[..i], did[..i]) ==>
              seen[i] == EagerSeen(EagerRun(Contents(VmOf(old(m.St()))), did[..i]), did[i])
    ensures Private(VmOf(m.St())) && InRange(VmOf(m.St()))
    ensures Contents(VmOf(m.St())) == EagerRun(Contents(VmOf(old(m.St()))), Joined(asides, did))
  {
    hide Quiet, VmOf, InRange, Leads, Private, EagerStep, EagerSeen, Contents, Seen, TurnsInto, Sides, Joined, Unmarked,
         EagerRun, Marks, AllAside, OfProgram, Enabled;
    ghost var s0 := m.St();
    QuietInRange(m, t);
    ghost var m0 := Contents(VmOf(s0));
    seen, oks, asides, did := [], [], [], [];
    JoinedNone(m0);
    while |seen| < |ops|
      invariant |seen| == |oks| == |asides| == |did| <= |ops| && Quiet(m, t) && InRange(VmOf(s0))
      invariant InRange(VmOf(m.St())) && Private(VmOf(m.St()))
      invariant Contents(VmOf(m.St())) == EagerRun(m0, Joined(asides, did))
      invariant forall i :: 0 <= i < |did| ==> Fits(ops[i], traps[i], oks[i], asides[i], did[i])
      invariant forall i :: 0 <= i < |did| ==> AllAside(asides[i])
      invariant forall i :: 0 <= i < |did| ==> Shows(m0, asides[..i], did[..i], seen[i], did[i])
    {
      ghost var s, was, wasAsides := m.St(), did, asides;
      var n := |seen|;
      var ok, x;
      ghost var aside, d;
      ok, x, aside, d := Perform(m, t, ops[n], traps[n]);
      LeadsRefines(VmOf(s), aside + [d], VmOf(m.St()));
      RunOn(m0, Joined(asides, did), aside + [d]);
      JoinedNext(asides, did, aside, d);
      SidesAside(ops[n], traps[n], aside);
      StepShows(VmOf(s), m0, asides, did, x, d);
      seen, oks, asides, did := seen + [x], oks + [ok], asides + [aside], did + [d];
      assert did[..n] == was && asides[..n] == wasAsides;
      assert forall i :: 0 <= i < n ==> did[..i] == was[..i] && asides[..i] == wasAsides[..i];
    }
  }

  ghost predicate Fits(op: Op, trap: Trap, ok: bool, aside: seq<Op>, did: Op) {
    TurnsInto(op, did) && (ok <==> did == op) && Sides(op, trap, aside)
  }

  /** Not a read, or one of a word that no aside has written since the program did. */
  predicate Unmarked(op: Op, asides: seq<seq<Op>>, did: seq<Op>)
    requires |asides| == |did|
  {
    op.Read? ==> Spot(op.env, op.vpn, op.off) !in Marks(asides, did)
  }

  ghost predicate Shows(m0: Copies, asides: seq<seq<Op>>, did: seq<Op>, x: Word, op: Op)
    requires |asides| == |did|
  {
    && x == EagerSeen(EagerRun(m0, Joined(asides, did)), op)
    && (Unmarked(op, asides, did) ==> x == EagerSeen(EagerRun(m0, did), op))
  }

  lemma StepShows(vm: Vm, m0: Copies, asides: seq<seq<Op>>, did: seq<Op>, x: Word, op: Op)
    requires InRange(vm) && |asides| == |did| && Contents(vm) == EagerRun(m0, Joined(asides, did))
    requires forall i :: 0 <= i < |asides| ==> AllAside(asides[i])
    requires if op.Read? then Enabled(vm, op) && x == Seen(vm, op) else x == NOTHING
    ensures Shows(m0, asides, did, x, op)
  {
    hide InRange, Contents, Joined, Marks, EagerRun, Seen;
    if op.Read? {
      SeenIsEager(vm, op);
      if Unmarked(op, asides, did) {
        SeenOutside(m0, asides, did, op);
      }
    }
  }

  lemma SidesAside(op: Op, trap: Trap, aside: seq<Op>)
    requires Sides(op, trap, aside)
    ensures AllAside(aside)
  {
    forall i | 0 <= i < |aside| ensures Aside(aside[i]) {
      assert SideOf(op.env, FaultVa(op.vpn, op.off), trap, aside[i]);
    }
  }

  /** Only words of an exception stack, or below the stack pointer of some fault, are ever marked. */
  lemma MarkedWords(ops: seq<Op>, traps: seq<Trap>, asides: seq<seq<Op>>, did: seq<Op>, x: Spot)
    requires |ops| == |traps| == |asides| == |did| && x in Marks(asides, did)
    requires forall i :: 0 <= i < |ops| ==> Sides(ops[i], traps[i], asides[i])
    ensures x.vpn == UXSTACK_VPN ||
            exists i ::
                0 <= i < |ops| && traps[i].esp >= 4 && x.vpn == SpareVpn(traps[i]) && x.off == SpareOff(traps[i])
  {
    MarksAre(asides, did, x);
    var i, e :| 0 <= i < |did| && Spot(e, x.vpn, x.off) in TouchedAll(asides[i]);
    var k := TouchedBy(asides[i], Spot(e, x.vpn, x.off));
    assert SideOf(ops[i].env, FaultVa(ops[i].vpn, ops[i].off), traps[i], asides[i][k]);
  }

  lemma {:induction false} TouchedBy(ops: seq<Op>, x: Spot) returns (k: nat)
    requires x in TouchedAll(ops)
    ensures k < |ops| && x in Touched(ops[k])
  {
    var last := |ops| - 1;
    if x in Touched(ops[last]) {
      k := last;
    } else {
      k := TouchedBy(ops[..last], x);
    }
  }
}

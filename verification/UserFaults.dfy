/**
  Loads and stores of user programs, with everything a page fault does to their memory: kern/trap.c,
  page_fault_handler, pushes a frame on the exception stack, lib/fork.c, pgfault, copies the page, and
  lib/pfentry.S writes the return address below the interrupted stack pointer.
*/
module UserFaults {
  import opened Mmu
  import opened PageRefs
  import opened PageCounts
  import opened Spaces
  import opened Pmap
  import opened EnvIds
  import opened Envs
  import opened Syscalls
  import opened Mappings
  import opened UserPages
  import opened Cow
  import EnvVm
  import FaultFrames

  /** What a fault finds and leaves: the interrupted stack pointer and instruction, and the words that end
      up on the exception stack: the rest of the frame, the handler's own stack below it, and the frame of
      a second fault, if writing the return address takes one. */
  datatype Trap = Trap(esp: nat, eip: Word, left: Page)

  /** The frame must fit on the exception stack. */
  predicate WellFormed(trap: Trap) { trap.esp % 4 == 0 && trap.esp >= 4 && FaultFrames.Fits(trap.esp) }

  /** A fault may write the words of the exception stack below this one. */
  function Top(esp: nat): (n: nat)
    ensures n <= NENTRIES
  {
    if FaultFrames.OnExceptionStack(esp) then (esp - FaultFrames.UXSTACKBASE) / 4 else NENTRIES
  }

  /** The word of the exception stack where the frame starts, with utf_fault_va. */
  function FrameIndex(esp: nat): (i: nat)
    requires esp % 4 == 0 && FaultFrames.Fits(esp)
    ensures i < Top(esp)
  {
    (FaultFrames.FrameFor(esp) - FaultFrames.UXSTACKBASE) / 4
  }

  /** The word below the interrupted stack pointer. */
  function SpareVpn(trap: Trap): nat requires trap.esp >= 4 { (trap.esp - 4) / PGSIZE }

  function SpareOff(trap: Trap): (i: nat)
    requires trap.esp >= 4
    ensures i < NENTRIES
  {
    (trap.esp - 4) % PGSIZE / 4
  }

  /** If that word is on the exception stack, it is one of those a fault may write there. */
  lemma SpareBelowTop(trap: Trap)
    requires WellFormed(trap) && SpareVpn(trap) == UXSTACK_VPN
    ensures SpareOff(trap) < Top(trap.esp)
  {
  }

  function Shr(n: nat, k: nat): nat { if k == 0 then n else Shr(n, k - 1) / 2 }

  predicate Odd(n: nat) { n % 2 == 1 }

  function Bits(n: nat): Flags {
    Flags(Odd(n), Odd(Shr(n, 1)), Odd(Shr(n, 2)), Odd(Shr(n, 3)), Odd(Shr(n, 4)), Odd(Shr(n, 5)), Odd(Shr(n, 6)),
          Odd(Shr(n, 7)), Odd(Shr(n, 8)), Odd(Shr(n, 9)), Odd(Shr(n, 10)), Odd(Shr(n, 11)))
  }

  /** An address as a word of memory. */
  function WordOf(a: nat): Word { Word(a / PGSIZE, Bits(a % PGSIZE)) }

  /** The word is that address, bit by bit. */
  lemma WordOfIs(a: nat)
    ensures WordOf(a).frame * PGSIZE + LowValue(WordOf(a).flags) == a
  {
    var n := a % PGSIZE;
    BitsValue(n);
    hide Bits, LowValue;
  }

  lemma BitsValue(n: nat)
    requires n < PGSIZE
    ensures LowValue(Bits(n)) == n
  {
    ShrAll(n);
    forall k: nat | k < 12 { LastBit(n, k); }
    hide Shr, Odd, LowValue;
    var h := seq(13, k requires 0 <= k < 13 => Shr(n, k));
    var b := BitsOf(Bits(n));
    BitsAre(n);
    hide Bits, Bit, BitsOf;
    BinarySum(h, b);
    LowValueIs(Bits(n));
  }

  lemma BitsAre(n: nat)
    ensures forall k: nat :: k < 12 ==> BitsOf(Bits(n))[k] == Bit(Odd(Shr(n, k)))
  {
    hide Odd, Bit;
  }

  lemma BinarySum(h: seq<nat>, b: seq<nat>)
    requires |h| == 13 && |b| == 12 && h[12] == 0 && forall k :: 0 <= k < 12 ==> h[k] == b[k] + 2 * h[k+1]
    ensures h[0] == b[0] + 2 * b[1] + 4 * b[2] + 8 * b[3] + 16 * b[4] + 32 * b[5] + 64 * b[6] + 128 * b[7]
                    + 256 * b[8] + 512 * b[9] + 1024 * b[10] + 2048 * b[11]
  {
    assert h[8] == b[8] + 2 * b[9] + 4 * b[10] + 8 * b[11];
    assert h[4] == b[4] + 2 * b[5] + 4 * b[6] + 8 * b[7] + 16 * h[8];
  }

  lemma LastBit(n: nat, k: nat)
    ensures Shr(n, k) == Bit(Odd(Shr(n, k))) + 2 * Shr(n, k + 1)
  {
  }

  lemma ShrAll(n: nat)
    requires n < PGSIZE
    ensures Shr(n, 0) == n && Shr(n, 12) == 0
  {
    ShrLess(n, 12);
  }

  lemma {:induction false} ShrLess(n: nat, k: nat)
    ensures Shr(n, k) * Power(k) <= n
    decreases k
  {
    if k > 0 {
      ShrLess(n, k - 1);
    }
  }

  function Power(k: nat): nat { if k == 0 then 1 else 2 * Power(k - 1) }

  function FaultVa(v: nat, off: nat): nat { v * PGSIZE + 4 * off }

  /** What the exception stack is left with, where a fault may write. */
  function LeftPage(va: nat, trap: Trap): Page
    requires WellFormed(trap)
  {
    trap.left[FrameIndex(trap.esp) := WordOf(va)]
  }

  /** user_mem_assert(curenv, utf, sizeof(struct UTrapframe), PTE_U | PTE_W) */
  predicate HasExceptionStack(space: map<nat, Word>) {
    UXSTACK_VPN in space && space[UXSTACK_VPN].flags.u && space[UXSTACK_VPN].flags.w
  }

  predicate Writable(space: map<nat, Word>, v: nat) { v in space && space[v].flags.w }

  /** No mapping at v, or one that user mode may use. */
  predicate ForUser(space: map<nat, Word>, v: nat) { v in space ==> space[v].flags.u }

  /** With the stack pointer at UXSTACKTOP the return address goes into the frame; see FaultFrames. */
  predicate ComesBack(trap: Trap) {
    trap.esp != FaultFrames.UXSTACKTOP || trap.eip == WordOf(FaultFrames.UXSTACKTOP - 4)
  }

  /** pgfault goes through. */
  ghost predicate Served(s: Mem, free: seq<nat>, e: nat, v: nat) {
    IsCow(EnvSpace(s, e), v) && !NoTempPage(s, free, e)
  }

  /** The return address can be written. */
  ghost predicate SpareServed(s: Mem, free: seq<nat>, e: nat, trap: Trap)
    requires trap.esp >= 4
  {
    SpareVpn(trap) == UXSTACK_VPN || Writable(EnvSpace(s, e), SpareVpn(trap)) || Served(s, free, e, SpareVpn(trap))
  }

  /** What writing the return address does, other than on the exception stack. */
  function SpareOps(space: map<nat, Word>, e: nat, trap: Trap): seq<Op>
    requires trap.esp >= 4
  {
    var store := Write(e, SpareVpn(trap), SpareOff(trap), trap.eip);
    if SpareVpn(trap) == UXSTACK_VPN then []
    else if Writable(space, SpareVpn(trap)) then [store]
    else [Copy(e, SpareVpn(trap)), store]
  }

  /** What a fault at word off of page v does, up to the return to the interrupted instruction. */
  function FaultOps(space: map<nat, Word>, e: nat, v: nat, off: nat, trap: Trap): (ops: seq<Op>)
    requires WellFormed(trap)
    ensures |ops| >= 2
  {
    [Fill(e, Top(trap.esp), LeftPage(FaultVa(v, off), trap)), Copy(e, v)]
    + SpareOps(SetPage(space, v, Word(0, PTE_U_W_P)), e, trap)
  }

  /** How a fault ends.  Without an exception stack the kernel destroys the environment; when pgfault panics,
      or the program does not come back to its instruction, what has been done so far stays. */
  ghost predicate Ends(space: map<nat, Word>, e: nat, v: nat, off: nat, trap: Trap, ok: bool, aside: seq<Op>, end: Op)
    requires WellFormed(trap)
  {
    var ops := FaultOps(space, e, v, off, trap);
    if !HasExceptionStack(space) then !ok && aside == [] && end == Exit(e)
    else if ok then aside == ops
    else end == Refused && (aside == ops[..1] || aside == ops[..2])
  }

  // ---------------------------------------------------------------- single steps

  method EntryOf(m: PhysMem, t: EnvTable, e: nat, v: nat) returns (w: Word)
    requires Quiet(m, t) && e < NENV && t.envs[e].status != FREE && v < UTOP_VPN
    ensures v in EnvSpace(m.St(), e) <==> Present(w)
    ensures v in EnvSpace(m.St(), e) ==> EnvSpace(m.St(), e)[v] == w
  {
    hide Inv, Typed, Space, EnvSpace;
    UvptIsKey(m, t, e, v);
    w := Uvpt(m.frames[..], m.pgdirs[e], v);
  }

  /** The word that a load of an address space yields. */
  ghost function Loaded(s: Mem, e: nat, v: nat, i: nat): Word {
    if v in EnvSpace(s, e) && EnvSpace(s, e)[v].frame < |s.frames| && i < NENTRIES
    then s.frames[EnvSpace(s, e)[v].frame][i] else NOTHING
  }

  /** A store to a writable page, or several to the same page. */
  method StorePage(m: PhysMem, t: EnvTable, cur: nat, v: nat, page: Page, ghost op: Op)
    requires Quiet(m, t) && cur < NENV && t.envs[cur].status != FREE && v < UTOP_VPN
    requires Writable(EnvSpace(m.St(), cur), v)
    requires op.Write? || op.Fill?
    requires op.Write? ==> op.env == cur && op.vpn == v && op.off < NENTRIES
    requires op.Fill? ==> op.env == cur && v == UXSTACK_VPN && op.n <= NENTRIES
    requires var g := EnvSpace(m.St(), cur)[v].frame;
             g < m.frames.Length ==>
               page == if op.Write? then m.frames[g][op.off := op.x] else Overlaid(m.frames[g], op.n, op.page)
    modifies m.frames
    ensures Quiet(m, t) && Takes(VmOf(old(m.St())), op, VmOf(m.St()))
    ensures EnvSpace(m.St(), cur) == old(EnvSpace(m.St(), cur))
    ensures HasTable(m.St(), cur, PFTEMP_VPN) == old(HasTable(m.St(), cur, PFTEMP_VPN))
    ensures Views(m.St()) == old(Views(m.St()))
    ensures forall i :: 0 <= i < NENTRIES ==> Loaded(m.St(), cur, v, i) == page[i]
  {
    hide Inv, Typed, Space, Views, EnvList, EnvSpace, HasTable, Takes;
    ghost var s := m.St();
    ViewOf(m, t, cur);
    var g := FrameAt(m, cur, v);
    WritePage(m, g, page);
    StoredTaken(s, cur, v, page, op, m.St());
    ViewOf(m, t, cur);
    SameTable(s, cur, g, page, PFTEMP_VPN);
  }

  lemma SameTable(s: Mem, e: nat, g: nat, page: Page, v: nat)
    requires |s.kind| == |s.frames| && g < |s.frames| && s.kind[g] == Data
    requires e < |s.roots| && s.roots[e] < |s.frames| && s.kind[s.roots[e]].Dir?
    ensures HasTable(s.(frames := s.frames[g := page]), e, v) == HasTable(s, e, v)
  {
  }

  lemma StoredTaken(s: Mem, e: nat, v: nat, page: Page, op: Op, s': Mem)
    requires e < |Views(s)| && Writable(EnvSpace(s, e), v) && EnvSpace(s, e)[v].frame < |s.frames|
    requires op.Write? || op.Fill?
    requires op.Write? ==> op.env == e && op.vpn == v && op.off < NENTRIES
    requires op.Fill? ==> op.env == e && v == UXSTACK_VPN && op.n <= NENTRIES
    requires var g := EnvSpace(s, e)[v].frame;
             page == if op.Write? then s.frames[g][op.off := op.x] else Overlaid(s.frames[g], op.n, op.page)
    requires s'.frames == s.frames[EnvSpace(s, e)[v].frame := page] && Views(s') == Views(s)
    ensures Takes(VmOf(s), op, VmOf(s'))
  {
    hide EnvSpace;
    ViewIsSpace(s, e);
  }

  lemma CopyTaken(s: Mem, e: nat, v: nat, f: nat, s': Mem)
    requires PageCopied(s, e, v, f, s')
    ensures Takes(VmOf(s), Copy(e, v), VmOf(s'))
    ensures e < |Views(s)| && e < |Views(s')| && EnvSpace(s', e) == SetPage(EnvSpace(s, e), v, Word(f, PTE_U_W_P))
  {
    hide EnvSpace;
    ViewIsSpace(s, e);
    ViewIsSpace(s', e);
    assert CopyStep(VmOf(s), e, v, f, VmOf(s'));
  }

  lemma RefusedTaken(s: Mem, s': Mem)
    requires Views(s') == Views(s) && KeptMapped(s, s')
    ensures Takes(VmOf(s), Refused, VmOf(s'))
  {
    hide Views;
  }

  lemma NothingIsRefused(s: Mem)
    ensures Takes(VmOf(s), Refused, VmOf(s))
  {
  }

  lemma ExitIsStep(s: Mem, pages: seq<PageInfo>, head: int, free: seq<nat>, s': Mem, e: nat)
    requires Calm(s, pages, head, free) && |s.kind| == |s.frames| && e < |s.roots| && s.roots[e] != 0
             && EnvVm.Freed(s, s', e)
    ensures Takes(VmOf(s), Exit(e), VmOf(s'))
  {
    hide Inv, Typed, Views, SameData, EnvVm.Freed, Space;
    InvTyped(s, pages, head, free, multiset{}, {});
    ExitViews(s, s', e);
    SameMore(s, s', {}, set f | f in free);
    KeptByCall(s, pages, head, free, s');
    forall c, x: nat | MapsTo(Views(s'), c, x) && x < |s.frames| ensures s'.frames[x] == s.frames[x] {
      assert MapsTo(Views(s), c, x);
    }
  }

  /** env_destroy of the running environment. */
  method Destroy(m: PhysMem, t: EnvTable, e: nat)
    requires Quiet(m, t) && e < NENV && t.envs[e].status != FREE
    modifies t, t.envs, m`freeList, m`free, m`hold, m`limbo, m`kind, m.pages, m.frames, m.pgdirs
    ensures Quiet(m, t) && t.envs[e].status == FREE
    ensures Takes(VmOf(old(m.St())), Exit(e), VmOf(m.St()))
  {
    hide Inv, Typed, Space, EnvSpace, Views, EnvList, Takes, EnvVm.Freed;
    ViewOf(m, t, e);
    t.EnvFree(m, e);
    ExitIsStep(old(m.St()), old(m.pages[..]), old(m.freeList), old(m.free), m.St(), e);
  }

  // ---------------------------------------------------------------- the fault

  /** pgfault as actions: the page has moved, or nothing mapped has changed. */
  method Serve(m: PhysMem, t: EnvTable, cur: nat, v: nat) returns (ok: bool)
    requires Quiet(m, t) && cur < NENV && t.envs[cur].status != FREE && v < UTOP_VPN
    requires PFTEMP_VPN !in EnvSpace(m.St(), cur)
    modifies m`freeList, m`free, m`hold, m`limbo, m`kind, m.pages, m.frames
    ensures Quiet(m, t) && |m.free| + 3 >= |old(m.free)|
    ensures ok <==> Served(old(m.St()), old(m.free), cur, v)
    ensures Takes(VmOf(old(m.St())), if ok then Copy(cur, v) else Refused, VmOf(m.St()))
    ensures ok ==>
              old(m.free) != [] && EnvSpace(m.St(), cur) ==
                SetPage(old(EnvSpace(m.St(), cur)), v, Word(old(m.free)[0], PTE_U_W_P))
  {
    hide Inv, Typed, Space, Views, EnvList, EnvSpace, PageCopied, KeptMapped, Takes, NoTempPage;
    ok := PgFault(m, t, cur, v);
    if ok {
      CopyTaken(old(m.St()), cur, v, old(m.free)[0], m.St());
    } else {
      RefusedTaken(old(m.St()), m.St());
    }
  }

  /** movl %edx, (%eax): the return address, below the interrupted stack pointer.  If that is on the exception
      stack, it is one of the words the fault is known to leave there. */
  method PushReturn(m: PhysMem, t: EnvTable, cur: nat, trap: Trap) returns (ok: bool)
    requires Quiet(m, t) && cur < NENV && t.envs[cur].status != FREE && WellFormed(trap)
    requires PFTEMP_VPN !in EnvSpace(m.St(), cur)
    modifies m`freeList, m`free, m`hold, m`limbo, m`kind, m.pages, m.frames
    ensures Quiet(m, t)
    ensures ok <==> SpareServed(old(m.St()), old(m.free), cur, trap)
    ensures ok ==> Leads(VmOf(old(m.St())), SpareOps(old(EnvSpace(m.St(), cur)), cur, trap), VmOf(m.St()))
    ensures !ok ==> Takes(VmOf(old(m.St())), Refused, VmOf(m.St()))
    ensures ok ==> forall v :: Writable(old(EnvSpace(m.St(), cur)), v) ==> Writable(EnvSpace(m.St(), cur), v)
    ensures ok && (trap.esp - 4) / PGSIZE != UXSTACK_VPN ==>
              Loaded(m.St(), cur, (trap.esp - 4) / PGSIZE, (trap.esp - 4) % PGSIZE / 4) == trap.eip
  {
    hide Inv, Typed, Space, Views, EnvList, EnvSpace, Takes, Leads, NoTempPage, HasTable;
    ghost var s := m.St();
    var sv, off := SpareVpn(trap), SpareOff(trap);
    LeadsNowhere(VmOf(s));
    NothingIsRefused(s);
    if sv == UXSTACK_VPN {
      return true;
    }
    SpaceKeys(s, cur);
    if sv >= UTOP_VPN {
      return false;
    }
    var w := EntryOf(m, t, cur, sv);
    if !(Present(w) && w.flags.w) {
      ok := Serve(m, t, cur, sv);
      if !ok {
        return;
      }
      LeadsOne(VmOf(s), Copy(cur, sv), VmOf(m.St()));
    }
    ghost var s1 := m.St();
    var g := FrameAt(m, cur, sv);
    ghost var store := Write(cur, sv, off, trap.eip);
    StorePage(m, t, cur, sv, m.frames[g][off := trap.eip], store);
    ghost var before := if Writable(EnvSpace(s, cur), sv) then [] else [Copy(cur, sv)];
    LeadsOn(VmOf(s), before, VmOf(s1), store, VmOf(m.St()));
    assert before + [store] == SpareOps(EnvSpace(s, cur), cur, trap);
    ok := true;
  }

  /** Where the frame starts, in the page as the fault leaves it, and what it does not touch. */
  lemma FramePage(s: Mem, e: nat, va: nat, trap: Trap)
    requires WellFormed(trap) && UXSTACK_VPN in EnvSpace(s, e) && EnvSpace(s, e)[UXSTACK_VPN].frame < |s.frames|
    ensures var page := Overlaid(s.frames[EnvSpace(s, e)[UXSTACK_VPN].frame], Top(trap.esp), LeftPage(va, trap));
            var onStack := UTOP - PGSIZE <= trap.esp < UTOP;
            var utf := if onStack then trap.esp - 56 else UTOP - 52;
            && 0 <= (utf - (UTOP - PGSIZE)) / 4 < NENTRIES && page[(utf - (UTOP - PGSIZE)) / 4] == WordOf(va)
            && forall i: nat :: i < NENTRIES && onStack && UTOP - PGSIZE + 4 * i >= trap.esp ==>
                 page[i] == Loaded(s, e, UXSTACK_VPN, i)
    ensures forall i: nat :: i >= NENTRIES ==> Loaded(s, e, UXSTACK_VPN, i) == NOTHING
  {
    hide EnvSpace, WordOf;
  }

  lemma LoadedOutside(s: Mem, e: nat)
    ensures forall i: nat :: i >= NENTRIES ==> Loaded(s, e, UXSTACK_VPN, i) == NOTHING
  {
  }

  /** The kernel's frame, and what else ends up on the exception stack. */
  method PushFrame(m: PhysMem, t: EnvTable, cur: nat, va: nat, trap: Trap)
    requires Quiet(m, t) && cur < NENV && t.envs[cur].status != FREE && WellFormed(trap)
    requires HasExceptionStack(EnvSpace(m.St(), cur))
    modifies m.frames
    ensures Quiet(m, t) && Takes(VmOf(old(m.St())), Fill(cur, Top(trap.esp), LeftPage(va, trap)), VmOf(m.St()))
    ensures EnvSpace(m.St(), cur) == old(EnvSpace(m.St(), cur))
    ensures HasTable(m.St(), cur, PFTEMP_VPN) == old(HasTable(m.St(), cur, PFTEMP_VPN))
    ensures var onStack := UTOP - PGSIZE <= trap.esp < UTOP;
            var utf := if onStack then trap.esp - 56 else UTOP - 52;
            && utf >= UTOP - PGSIZE
            && Loaded(m.St(), cur, UXSTACK_VPN, (utf - (UTOP - PGSIZE)) / 4) == WordOf(va)
            && forall i: nat :: onStack && UTOP - PGSIZE + 4 * i >= trap.esp ==>
                 Loaded(m.St(), cur, UXSTACK_VPN, i) == old(Loaded(m.St(), cur, UXSTACK_VPN, i))
  {
    hide Inv, Typed, Space, Views, EnvList, EnvSpace, HasTable, Takes, Top, LeftPage, WordOf, Loaded;
    ViewOf(m, t, cur);
    var g := FrameAt(m, cur, UXSTACK_VPN);
    var n, page := Top(trap.esp), LeftPage(va, trap);
    FramePage(m.St(), cur, va, trap);
    StorePage(m, t, cur, UXSTACK_VPN, Overlaid(m.frames[g], n, page), Fill(cur, n, page));
    LoadedOutside(m.St(), cur);
  }

  /** pgfault and the instructions after it.  mid is the machine in between; not ok after `copied` means that
      the program does not get back to its instruction. */
  method Handle(m: PhysMem, t: EnvTable, cur: nat, v: nat, trap: Trap)
    returns (ok: bool, ghost copied: bool, ghost mid: Mem, ghost midFree: seq<nat>)
    requires Quiet(m, t) && cur < NENV && t.envs[cur].status != FREE && v < UTOP_VPN
    requires PFTEMP_VPN !in EnvSpace(m.St(), cur) && WellFormed(trap)
    modifies m`freeList, m`free, m`hold, m`limbo, m`kind, m.pages, m.frames
    ensures Quiet(m, t)
    ensures copied <==> Served(old(m.St()), old(m.free), cur, v)
    ensures copied ==>
              && old(m.free) != [] && |midFree| + 3 >= |old(m.free)|
              && EnvSpace(mid, cur) == SetPage(old(EnvSpace(m.St(), cur)), v, Word(old(m.free)[0], PTE_U_W_P))
    ensures ok <==> copied && SpareServed(mid, midFree, cur, trap) && ComesBack(trap)
    ensures Leads(VmOf(old(m.St())), HandleOps(old(EnvSpace(m.St(), cur)), cur, v, trap, ok, copied), VmOf(m.St()))
    ensures ok ==> Writable(EnvSpace(m.St(), cur), v)
  {
    hide Inv, Typed, Space, Views, EnvList, EnvSpace, Takes, Leads, NoTempPage, SpareOps, SpareServed;
    ghost var s, space := m.St(), EnvSpace(m.St(), cur);
    mid, midFree, copied := m.St(), m.free, false;
    ok := Serve(m, t, cur, v);
    if !ok {
      LeadsOne(VmOf(s), Refused, VmOf(m.St()));
      return;
    }
    LeadsOne(VmOf(s), Copy(cur, v), VmOf(m.St()));
    mid, midFree, copied := m.St(), m.free, true;
    ok := PushReturn(m, t, cur, trap);
    if !ok {
      LeadsOn(VmOf(s), [Copy(cur, v)], VmOf(mid), Refused, VmOf(m.St()));
      return;
    }
    SpareOpsSame(EnvSpace(mid, cur), SetPage(space, v, Word(0, PTE_U_W_P)), cur, trap);
    LeadsMore(VmOf(s), [Copy(cur, v)], VmOf(mid), SpareOps(EnvSpace(mid, cur), cur, trap), VmOf(m.St()));
    if !ComesBack(trap) {
      ok := false;
      SpareOpsOnStack(EnvSpace(mid, cur), cur, trap);
      NothingIsRefused(m.St());
      LeadsOn(VmOf(s), [Copy(cur, v)], VmOf(m.St()), Refused, VmOf(m.St()));
    }
  }

  function HandleOps(space: map<nat, Word>, e: nat, v: nat, trap: Trap, ok: bool, copied: bool): seq<Op>
    requires trap.esp >= 4
  {
    if ok then [Copy(e, v)] + SpareOps(SetPage(space, v, Word(0, PTE_U_W_P)), e, trap)
    else if copied then [Copy(e, v)] + [Refused]
    else [Refused]
  }

  lemma SpareOpsOnStack(space: map<nat, Word>, e: nat, trap: Trap)
    requires trap.esp >= 4 && !ComesBack(trap)
    ensures forall ops: seq<Op> :: ops + SpareOps(space, e, trap) == ops
  {
  }

  /** A page fault of a user program at word off of page v: up to the return to the interrupted instruction,
      or to the end of the program.  mid is the machine between pgfault and the return. */
  method Fault(m: PhysMem, t: EnvTable, cur: nat, v: nat, off: nat, trap: Trap)
    returns (ok: bool, ghost aside: seq<Op>, ghost end: Op, ghost mid: Mem, ghost midFree: seq<nat>)
    requires Quiet(m, t) && cur < NENV && t.envs[cur].status != FREE && v < UTOP_VPN && off < NENTRIES
    requires PFTEMP_VPN !in EnvSpace(m.St(), cur) && WellFormed(trap)
    modifies t, t.envs, m`freeList, m`free, m`hold, m`limbo, m`kind, m.pages, m.frames, m.pgdirs
    ensures Quiet(m, t) && Ends(old(EnvSpace(m.St(), cur)), cur, v, off, trap, ok, aside, end)
    ensures Leads(VmOf(old(m.St())), if ok then aside else aside + [end], VmOf(m.St()))
    ensures HasExceptionStack(old(EnvSpace(m.St(), cur))) && Served(old(m.St()), old(m.free), cur, v) ==>
              && old(m.free) != [] && |midFree| + 3 >= |old(m.free)|
              && EnvSpace(mid, cur) == SetPage(old(EnvSpace(m.St(), cur)), v, Word(old(m.free)[0], PTE_U_W_P))
    ensures ok <==>
              && HasExceptionStack(old(EnvSpace(m.St(), cur))) && Served(old(m.St()), old(m.free), cur, v)
              && SpareServed(mid, midFree, cur, trap) && ComesBack(trap)
    ensures ok ==> Writable(EnvSpace(m.St(), cur), v) && t.envs[cur].status != FREE
    ensures ok ==> v in old(EnvSpace(m.St(), cur)) && old(EnvSpace(m.St(), cur))[v].flags.cow
    ensures !ok && end == Exit(cur) <==>
              !(UXSTACK_VPN in old(EnvSpace(m.St(), cur)) && old(EnvSpace(m.St(), cur))[UXSTACK_VPN].flags.u
                && old(EnvSpace(m.St(), cur))[UXSTACK_VPN].flags.w)
  {
    hide Inv, Typed, Space, Views, EnvList, EnvSpace, Takes, Leads, NoTempPage, HasTable, SpareOps, SpareServed;
    ghost var s, space := m.St(), EnvSpace(m.St(), cur);
    ghost var ops := FaultOps(space, cur, v, off, trap);
    mid, midFree, aside, end := m.St(), m.free, [], Refused;
    var w := EntryOf(m, t, cur, UXSTACK_VPN);
    if !(Present(w) && w.flags.u && w.flags.w) {
      Destroy(m, t, cur);
      end := Exit(cur);
      LeadsOne(VmOf(s), end, VmOf(m.St()));
      assert [] + [end] == [end];
      return false, aside, end, mid, midFree;
    }
    PushFrame(m, t, cur, FaultVa(v, off), trap);
    LeadsOne(VmOf(s), ops[0], VmOf(m.St()));
    TempSame(s, m.St(), m.free, cur);
    ghost var s1 := m.St();
    ghost var copied;
    ok, copied, mid, midFree := Handle(m, t, cur, v, trap);
    LeadsMore(VmOf(s), [ops[0]], VmOf(s1), HandleOps(space, cur, v, trap, ok, copied), VmOf(m.St()));
    aside := if ok then ops else if copied then ops[..2] else ops[..1];
    assert [ops[0]] + HandleOps(space, cur, v, trap, ok, copied) == if ok then aside else aside + [end];
  }

  lemma TempSame(s: Mem, s': Mem, free: seq<nat>, e: nat)
    requires HasTable(s', e, PFTEMP_VPN) == HasTable(s, e, PFTEMP_VPN)
    ensures NoTempPage(s', free, e) == NoTempPage(s, free, e)
  {
  }

  lemma SpareOpsSame(space: map<nat, Word>, space': map<nat, Word>, e: nat, trap: Trap)
    requires trap.esp >= 4 && Writable(space', SpareVpn(trap)) == Writable(space, SpareVpn(trap))
    ensures SpareOps(space', e, trap) == SpareOps(space, e, trap)
  {
  }

  // ---------------------------------------------------------------- loads and stores

  /** What is enough for a store to a page that is not writable. */
  ghost predicate Smooth(space: map<nat, Word>, free: seq<nat>, v: nat, trap: Trap) {
    && WellFormed(trap) && HasExceptionStack(space) && PFTEMP_VPN !in space && IsCow(space, v) && ComesBack(trap)
    && (SpareVpn(trap) == UXSTACK_VPN || Writable(space, SpareVpn(trap)) || IsCow(space, SpareVpn(trap)))
    && |free| >= 5
  }

  /** A store instruction.  Where the page is not writable it faults, and is executed again when the fault has
      been handled. */
  method UserWrite(m: PhysMem, t: EnvTable, cur: nat, v: nat, off: nat, x: Word, trap: Trap)
    returns (ok: bool, ghost aside: seq<Op>, ghost did: Op, ghost mid: Mem, ghost midFree: seq<nat>)
    requires Quiet(m, t) && cur < NENV && t.envs[cur].status != FREE && v < UTOP_VPN && off < NENTRIES
    requires ForUser(EnvSpace(m.St(), cur), v)
    requires !Writable(EnvSpace(m.St(), cur), v) ==>
               WellFormed(trap) && PFTEMP_VPN !in EnvSpace(m.St(), cur)
                   && ForUser(EnvSpace(m.St(), cur), SpareVpn(trap))
    modifies t, t.envs, m`freeList, m`free, m`hold, m`limbo, m`kind, m.pages, m.frames, m.pgdirs
    ensures Quiet(m, t) && Leads(VmOf(old(m.St())), aside + [did], VmOf(m.St()))
    ensures ok ==> did == Write(cur, v, off, x)
    ensures ok ==>
              && v in old(EnvSpace(m.St(), cur))
              && (old(EnvSpace(m.St(), cur))[v].flags.w || old(EnvSpace(m.St(), cur))[v].flags.cow)
    ensures Writable(old(EnvSpace(m.St(), cur)), v) ==> ok && aside == []
    ensures !Writable(old(EnvSpace(m.St(), cur)), v) ==>
              && Ends(old(EnvSpace(m.St(), cur)), cur, v, off, trap, ok, aside, did)
              && (HasExceptionStack(old(EnvSpace(m.St(), cur))) && Served(old(m.St()), old(m.free), cur, v) ==>
                    EnvSpace(mid, cur) == SetPage(old(EnvSpace(m.St(), cur)), v, Word(old(m.free)[0], PTE_U_W_P)))
              && (ok <==> && HasExceptionStack(old(EnvSpace(m.St(), cur))) && Served(old(m.St()), old(m.free), cur, v)
                          && SpareServed(mid, midFree, cur, trap) && ComesBack(trap))
    ensures Smooth(old(EnvSpace(m.St(), cur)), old(m.free), v, trap) ==> ok
  {
    hide Inv, Typed, Space, Views, EnvList, EnvSpace, Takes, Leads, NoTempPage, SpareServed, Served, FaultOps, Smooth,
         HasExceptionStack;
    ghost var s := m.St();
    mid, midFree, aside := m.St(), m.free, [];
    did := Write(cur, v, off, x);
    var w := EntryOf(m, t, cur, v);
    LeadsNowhere(VmOf(s));
    ok := true;
    if !(Present(w) && w.flags.w) {
      ghost var end;
      ok, aside, end, mid, midFree := Fault(m, t, cur, v, off, trap);
      SmoothIsServed(s, old(m.free), mid, midFree, cur, v, trap);
      if !ok {
        did := end;
        return;
      }
    }
    ghost var s1 := m.St();
    ViewOf(m, t, cur);
    var g := FrameAt(m, cur, v);
    StorePage(m, t, cur, v, m.frames[g][off := x], did);
    LeadsOn(VmOf(s), aside, VmOf(s1), did, VmOf(m.St()));
  }

  lemma SmoothIsServed(s: Mem, free: seq<nat>, mid: Mem, midFree: seq<nat>, e: nat, v: nat, trap: Trap)
    requires trap.esp >= 4
    requires HasExceptionStack(EnvSpace(s, e)) && Served(s, free, e, v) ==>
               && |midFree| + 3 >= |free| > 0
               && EnvSpace(mid, e) == SetPage(EnvSpace(s, e), v, Word(free[0], PTE_U_W_P))
    ensures Smooth(EnvSpace(s, e), free, v, trap) ==>
              && HasExceptionStack(EnvSpace(s, e)) && Served(s, free, e, v) && SpareServed(mid, midFree, e, trap)
              && ComesBack(trap)
  {
    hide EnvSpace, HasTable;
  }

  /** A load instruction shows the program the word the model says it sees; where nothing is mapped it faults
      for good. */
  method UserRead(m: PhysMem, t: EnvTable, cur: nat, v: nat, off: nat, trap: Trap)
    returns (ok: bool, x: Word, ghost aside: seq<Op>, ghost did: Op)
    requires Quiet(m, t) && cur < NENV && t.envs[cur].status != FREE && v < UTOP_VPN && off < NENTRIES
    requires ForUser(EnvSpace(m.St(), cur), v)
    requires v !in EnvSpace(m.St(), cur) ==> WellFormed(trap) && PFTEMP_VPN !in EnvSpace(m.St(), cur)
    modifies t, t.envs, m`freeList, m`free, m`hold, m`limbo, m`kind, m.pages, m.frames, m.pgdirs
    ensures Quiet(m, t) && Leads(VmOf(old(m.St())), aside + [did], VmOf(m.St()))
    ensures ok <==> v in old(EnvSpace(m.St(), cur))
    ensures ok ==>
              && aside == [] && did == Read(cur, v, off) && m.St() == old(m.St())
              && Enabled(VmOf(m.St()), did) && x == Seen(VmOf(m.St()), did)
    ensures !ok ==> Ends(old(EnvSpace(m.St(), cur)), cur, v, off, trap, ok, aside, did) && x == NOTHING
  {
    hide Inv, Typed, Space, Views, EnvList, EnvSpace, Leads, FaultOps, NoTempPage;
    aside, did, x := [], Read(cur, v, off), NOTHING;
    ghost var s := m.St();
    var w := EntryOf(m, t, cur, v);
    ok := Present(w);
    if ok {
      ViewOf(m, t, cur);
      var g := FrameAt(m, cur, v);
      x := m.frames[g][off];
      LeadsOne(VmOf(s), did, VmOf(s));
      assert [] + [did] == [did];
    } else {
      ghost var mid, midFree;
      ok, aside, did, mid, midFree := Fault(m, t, cur, v, off, trap);
    }
  }

  // ---------------------------------------------------------------- what a program can see of it

  /** On its exception stack a program does see a fault: with the stack pointer elsewhere, word 1011 shows the
      address that faulted, and without the fault what stood there before. */
  lemma ExceptionStackShows(m: Copies, space: map<nat, Word>, e: nat, v: nat, off: nat, x: Word, trap: Trap)
    requires Place(e, UXSTACK_VPN) in m && v != UXSTACK_VPN && off < NENTRIES && WellFormed(trap)
    requires !FaultFrames.OnExceptionStack(trap.esp)
    requires SpareVpn(trap) != UXSTACK_VPN
    ensures var store, read := Write(e, v, off, x), Read(e, UXSTACK_VPN, 1011);
            && EagerSeen(EagerRun(m, FaultOps(space, e, v, off, trap) + [store]), read) == WordOf(FaultVa(v, off))
            && EagerSeen(EagerRun(m, [store]), read) == m[Place(e, UXSTACK_VPN)][1011]
  {
    var store := Write(e, v, off, x);
    var ops := FaultOps(space, e, v, off, trap);
    assert [store][..0] == [];
    assert EagerRun(m, [store]) == EagerStep(m, store);
    var rest := ops[1..] + [store];
    RunOn(m, [ops[0]], rest);
    assert [ops[0]] + rest == ops + [store];
    assert [ops[0]][..0] == [];
    var m1 := EagerRun(m, [ops[0]]);
    assert m1 == EagerStep(m, ops[0]);
    StackKept(m1, rest, e);
  }

  /** Stores to other pages and copying pages leave the exception stack alone. */
  lemma {:induction false} StackKept(m: Copies, ops: seq<Op>, e: nat)
    requires Place(e, UXSTACK_VPN) in m
    requires forall i :: 0 <= i < |ops| ==> ops[i].Copy? || (ops[i].Write? && ops[i].vpn != UXSTACK_VPN)
    ensures Place(e, UXSTACK_VPN) in EagerRun(m, ops)
    ensures EagerRun(m, ops)[Place(e, UXSTACK_VPN)] == m[Place(e, UXSTACK_VPN)]
    decreases |ops|
  {
    if ops != [] {
      StackKept(m, ops[..|ops|-1], e);
    }
  }
}

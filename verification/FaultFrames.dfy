/**
  User page faults that nest: kern/trap.c, page_fault_handler, pushes a frame on the exception stack;
  lib/pfentry.S unwinds it.  Words of memory are at byte addresses that are multiples of four.
*/
module FaultFrames {
  import opened Mmu

  const UXSTACKTOP := UTOP
  const UXSTACKBASE := UTOP - PGSIZE
  const UTF_SIZE := 52              // sizeof(struct UTrapframe)

  datatype Regs = Regs(edi: nat, esi: nat, ebp: nat, ebx: nat, edx: nat, ecx: nat, eax: nat)
  datatype Context = Context(eip: nat, eflags: nat, esp: nat, regs: Regs)

  type Memory = map<nat, nat>

  function Get(mem: Memory, a: nat): nat { if a in mem then mem[a] else 0 }

  predicate OnExceptionStack(esp: nat) { UXSTACKBASE <= esp <= UXSTACKTOP - 1 }

  /** Where page_fault_handler puts the frame: a nested one leaves a word for the unwinding. */
  function FrameFor(esp: nat): int {
    if OnExceptionStack(esp) then esp - UTF_SIZE - 4 else UXSTACKTOP - UTF_SIZE
  }

  /** user_mem_assert: the frame must lie in the one page of the exception stack. */
  predicate Fits(esp: nat) { FrameFor(esp) >= UXSTACKBASE }

  /** The words of the frame at u that a return needs; the fault address, error code and stored esp of
      pusha are not among them. */
  predicate Saved(mem: Memory, u: nat, c: Context) {
    && LoadRegs(mem, u + 8) == c.regs && Get(mem, u + 40) == c.eip && Get(mem, u + 44) == c.eflags
    && Get(mem, u + 48) == c.esp
  }

  /** The eight words of struct PushRegs; popal skips the stored esp. */
  function StoreRegs(mem: Memory, a: nat, r: Regs, oesp: nat): Memory {
    mem[a := r.edi][a + 4 := r.esi][a + 8 := r.ebp][a + 12 := oesp][a + 16 := r.ebx][a + 20 := r.edx]
       [a + 24 := r.ecx][a + 28 := r.eax]
  }

  function LoadRegs(mem: Memory, a: nat): Regs {
    Regs(Get(mem, a), Get(mem, a + 4), Get(mem, a + 8), Get(mem, a + 16), Get(mem, a + 20), Get(mem, a + 24),
        Get(mem, a + 28))
  }

  /** struct UTrapframe at u, word by word. */
  predicate UtfAt(mem: Memory, u: nat, va: nat, trapno: nat, oesp: nat, c: Context) {
    && Get(mem, u) == va && Get(mem, u + 4) == trapno
    && Get(mem, u + 8) == c.regs.edi && Get(mem, u + 12) == c.regs.esi && Get(mem, u + 16) == c.regs.ebp
    && Get(mem, u + 20) == oesp && Get(mem, u + 24) == c.regs.ebx && Get(mem, u + 28) == c.regs.edx
    && Get(mem, u + 32) == c.regs.ecx && Get(mem, u + 36) == c.regs.eax
    && Get(mem, u + 40) == c.eip && Get(mem, u + 44) == c.eflags && Get(mem, u + 48) == c.esp
  }

  lemma FrameStored(mem: Memory, u: nat, va: nat, trapno: nat, oesp: nat, c: Context)
    requires Get(mem, u) == va && Get(mem, u + 4) == trapno
    requires Get(mem, u + 40) == c.eip && Get(mem, u + 44) == c.eflags && Get(mem, u + 48) == c.esp
    ensures UtfAt(StoreRegs(mem, u + 8, c.regs, oesp), u, va, trapno, oesp, c)
  {
  }

  lemma RegsStored(mem: Memory, a: nat, r: Regs, oesp: nat)
    ensures LoadRegs(StoreRegs(mem, a, r, oesp), a) == r
    ensures forall x: nat :: !(a <= x < a + 32) ==> Get(StoreRegs(mem, a, r, oesp), x) == Get(mem, x)
  {
  }

  /** An interrupted context and the frame that keeps it. */
  datatype Active = Active(context: Context, utf: nat)

  /** A fault outside the exception stack, with a word below the interrupted stack pointer. */
  predicate Outermost(esp: nat) { esp % 4 == 0 && 4 <= esp && !OnExceptionStack(esp) }

  /** Is the word below the interrupted stack pointer, which the return goes through, part of the frame? */
  predicate SpareInFrame(a: Active) { a.utf <= a.context.esp - 4 < a.utf + UTF_SIZE }

  /** That happens for one stack pointer only: the top of the exception stack, which counts as outside. */
  lemma SpareInFrameIff(a: Active)
    requires a.context.esp % 4 == 0 && a.context.esp >= 4 && Fits(a.context.esp) && a.utf == FrameFor(a.context.esp)
    ensures SpareInFrame(a) <==> a.context.esp - 4 == a.utf + 48
    ensures SpareInFrame(a) <==> a.context.esp == UXSTACKTOP
  {
  }

  predicate StackedAt(active: seq<Active>, i: nat)
    requires i < |active|
  {
    && active[i].utf % 4 == 0 && UXSTACKBASE <= active[i].utf == FrameFor(active[i].context.esp)
    && (if i == 0 then Outermost(active[i].context.esp)
        else
          OnExceptionStack(active[i].context.esp) && active[i].context.esp <= active[i-1].utf
          && active[i].context.esp % 4 == 0)
  }

  /** The frames lie one below the other, the newest last. */
  ghost predicate Stacked(active: seq<Active>) { forall i: nat :: i < |active| ==> StackedAt(active, i) }

  ghost predicate AllSaved(mem: Memory, active: seq<Active>) {
    forall i :: 0 <= i < |active| ==> Saved(mem, active[i].utf, active[i].context)
  }

  /** The address belongs to a frame or to the spare word above it. */
  predicate InFrame(a: Active, addr: int) { a.utf <= addr < a.utf + UTF_SIZE || addr == a.context.esp - 4 }

  /** Frames and spare words of different faults never overlap, and a spare word is not in its own frame. */
  lemma {:induction false} Disjoint(active: seq<Active>, i: nat, j: nat, addr: int)
    requires Stacked(active) && i < j < |active|
    ensures active[j].utf + UTF_SIZE + 4 <= active[i].utf
    ensures !(InFrame(active[i], addr) && InFrame(active[j], addr))
    ensures !SpareInFrame(active[j])
  {
    assert StackedAt(active, i) && StackedAt(active, j);
    if i + 1 < j {
      Disjoint(active, i, j - 1, addr);
    }
  }

  function Put(mem: Memory, a: nat, w: nat): Memory { mem[a := w] }

  class Machine {
    var cpu: Context
    var mem: Memory
    ghost var active: seq<Active>

    ghost predicate Valid()
      reads this
    {
      Stacked(active) && AllSaved(mem, active)
    }

    /** The stack pointer of a handler stays on the exception stack, below the frame it works for. */
    ghost predicate InHandler()
      reads this
    {
      active != [] ==> OnExceptionStack(cpu.esp) && cpu.esp % 4 == 0 && cpu.esp <= active[|active|-1].utf
    }

    constructor (cpu: Context, mem: Memory)
      ensures Valid() && active == [] && this.cpu == cpu && this.mem == mem
    {
      this.cpu, this.mem, active := cpu, mem, [];
    }

    /** page_fault_handler for an environment with an upcall.  Not alive: the exception stack has
        overflowed and the environment is destroyed. */
    method PageFault(va: nat, trapno: nat, oesp: nat, upcall: nat) returns (alive: bool)
      requires Valid() && InHandler() && (active == [] ==> Outermost(cpu.esp))
      modifies this
      ensures alive == Fits(old(cpu.esp))
      ensures alive <==> !(UTOP - PGSIZE <= old(cpu.esp) < UTOP - PGSIZE + 56)
      ensures !alive ==> cpu == old(cpu) && mem == old(mem) && active == old(active)
      ensures alive ==>
                && Valid() && InHandler() && cpu == old(cpu).(esp := FrameFor(old(cpu.esp)), eip := upcall)
                && active == old(active) + [Active(old(cpu), cpu.esp)]
                && cpu.esp == (if UTOP - PGSIZE <= old(cpu.esp) < UTOP then old(cpu.esp) - 56 else UTOP - 52)
                && UtfAt(mem, cpu.esp, va, trapno, oesp, old(cpu))
                && forall a: nat :: !(cpu.esp <= a < cpu.esp + UTF_SIZE) ==> Get(mem, a) == Get(old(mem), a)
    {
      var u := FrameFor(cpu.esp);
      if u < UXSTACKBASE {
        return false;
      }
      StoreFrame(u, va, trapno, oesp);
      ghost var a := Active(cpu, u);
      PushStacked(active, a);
      PushKeeps(old(mem), mem, active, a);
      active := active + [a];
      cpu := cpu.(esp := u, eip := upcall);
      alive := true;
    }

    /** The stores to utf->... */
    method StoreFrame(u: nat, va: nat, trapno: nat, oesp: nat)
      modifies `mem
      ensures Saved(mem, u, cpu) && UtfAt(mem, u, va, trapno, oesp, cpu)
      ensures forall a: nat :: !(u <= a < u + UTF_SIZE) ==> Get(mem, a) == Get(old(mem), a)
    {
      hide StoreRegs, LoadRegs, UtfAt;
      mem := Put(mem, u, va);
      mem := Put(mem, u + 4, trapno);
      mem := Put(mem, u + 40, cpu.eip);
      mem := Put(mem, u + 44, cpu.eflags);
      mem := Put(mem, u + 48, cpu.esp);
      RegsStored(mem, u + 8, cpu.regs, oesp);
      FrameStored(mem, u, va, trapno, oesp, cpu);
      mem := StoreRegs(mem, u + 8, cpu.regs, oesp);
    }

    /** Whatever the handler does between two faults: it leaves active frames and spare words alone. */
    method Work(cpu': Context, mem': Memory)
      requires Valid()
      requires active != [] ==> OnExceptionStack(cpu'.esp) && cpu'.esp % 4 == 0 && cpu'.esp <= active[|active|-1].utf
      requires forall i, a: nat :: 0 <= i < |active| && InFrame(active[i], a) ==> Get(mem', a) == Get(mem, a)
      modifies this
      ensures Valid() && InHandler() && active == old(active) && cpu == cpu' && mem == mem'
    {
      forall i | 0 <= i < |active| ensures Saved(mem', active[i].utf, active[i].context) {
        SavedKept(mem, mem', active[i]);
      }
      cpu, mem := cpu', mem';
    }

    /** _pgfault_upcall from the return of the C handler on, instruction by instruction.  The interrupted
        context is back exactly unless the return word fell into the frame. */
    method Unwind()
      requires Valid() && active != [] && cpu.esp == active[|active|-1].utf
      modifies this
      ensures Valid() && active == old(active)[..|old(active)|-1]
      ensures var top := old(active)[|old(active)|-1];
              cpu == top.context <==> !SpareInFrame(top) || top.context.eip == UXSTACKTOP - 4
      ensures active != [] ==> cpu == old(active)[|old(active)|-1].context
      ensures var top := old(active)[|old(active)|-1];
              forall a: nat :: a != top.context.esp - 4 && a != top.utf + 48 ==> Get(mem, a) == Get(old(mem), a)
      ensures InHandler()
    {
      hide Saved, Stacked, AllSaved, LoadRegs, Get, SpareInFrame;
      ghost var top, mem0 := active[|active|-1], mem;
      SpareApart(mem, active);
      var esp := cpu.esp;
      var eax := Get(mem, esp + 48);          // the interrupted esp
      eax := eax - 4;                         // room for one word on that stack
      var edx := Get(mem, esp + 40);          // the interrupted eip
      mem := Put(mem, eax, edx);              // goes into the spare word
      mem := Put(mem, esp + 48, eax);         // and esp is adjusted for it
      UnwindKeeps(mem0, mem, active, eax, edx);
      OtherWords(mem0, eax, edx, esp + 48, eax);
      esp := esp + 8;                         // past the fault address and error code
      var regs := LoadRegs(mem, esp);         // the general registers
      esp := esp + 32;
      esp := esp + 4;                         // past eip
      var eflags := Get(mem, esp);            // the flags
      esp := esp + 4;
      esp := Get(mem, esp);                   // back to the interrupted stack
      var eip := Get(mem, esp);               // return through the spare word
      esp := esp + 4;
      cpu := Context(eip, eflags, esp, regs);
      ResumedIff(mem0, top);
      active := active[..|active|-1];
    }
  }

  /** What the unwinding makes of the frame at u, as a function of memory. */
  function Resumed(mem: Memory, u: nat): Context
    requires Get(mem, u + 48) >= 4
  {
    var spare := Get(mem, u + 48) - 4;
    var mem' := Put(Put(mem, spare, Get(mem, u + 40)), u + 48, spare);
    Context(Get(mem', Get(mem', u + 48)), Get(mem', u + 44), Get(mem', u + 48) + 4, LoadRegs(mem', u + 8))
  }

  /** For every word-aligned stack pointer, on the exception stack or off it: the context comes back if
      and only if the spare word is not in the frame, or holds the right value there by accident. */
  lemma ResumedIff(mem: Memory, a: Active)
    requires a.context.esp % 4 == 0 && a.context.esp >= 4 && Fits(a.context.esp) && a.utf == FrameFor(a.context.esp)
    requires Saved(mem, a.utf, a.context)
    ensures Resumed(mem, a.utf) == a.context <==> !SpareInFrame(a) || a.context.eip == UXSTACKTOP - 4
  {
    SpareInFrameIff(a);
  }

  lemma OtherWords(mem: Memory, x: nat, v: nat, y: nat, w: nat)
    ensures forall a: nat :: a != x && a != y ==> Get(Put(Put(mem, x, v), y, w), a) == Get(mem, a)
  {
  }

  lemma SavedKept(mem: Memory, mem': Memory, a: Active)
    requires Saved(mem, a.utf, a.context) && forall x: nat :: a.utf <= x < a.utf + UTF_SIZE ==>
               Get(mem', x) == Get(mem, x)
    ensures Saved(mem', a.utf, a.context)
  {
  }

  lemma PushKeeps(mem: Memory, mem': Memory, active: seq<Active>, a: Active)
    requires Stacked(active) && AllSaved(mem, active) && Stacked(active + [a]) && Saved(mem', a.utf, a.context)
    requires forall x: nat :: !(a.utf <= x < a.utf + UTF_SIZE) ==> Get(mem', x) == Get(mem, x)
    ensures AllSaved(mem', active + [a])
  {
    var all := active + [a];
    forall i | 0 <= i < |active| ensures Saved(mem', active[i].utf, active[i].context) {
      Disjoint(all, i, |active|, 0);
      assert all[i] == active[i] && all[|active|] == a;
      SavedKept(mem, mem', active[i]);
    }
  }

  lemma PushStacked(active: seq<Active>, a: Active)
    requires Stacked(active) && a.utf % 4 == 0 && UXSTACKBASE <= a.utf == FrameFor(a.context.esp)
    requires active == [] ==> Outermost(a.context.esp)
    requires active != [] ==>
               OnExceptionStack(a.context.esp) && a.context.esp % 4 == 0 && a.context.esp <= active[|active|-1].utf
    ensures Stacked(active + [a])
  {
    var all := active + [a];
    forall i: nat | i < |all| ensures StackedAt(all, i) {
      if i < |active| {
        assert StackedAt(active, i);
      }
    }
  }

  lemma SpareApart(mem: Memory, active: seq<Active>)
    requires Stacked(active) && active != [] && AllSaved(mem, active)
    ensures var top := active[|active|-1];
            && top.context.esp >= 4 && top.context.esp % 4 == 0 && Fits(top.context.esp)
            && top.utf == FrameFor(top.context.esp) && Saved(mem, top.utf, top.context)
            && Get(mem, top.utf + 48) == top.context.esp && Get(mem, top.utf + 40) == top.context.eip
            && (|active| > 1 ==> OnExceptionStack(top.context.esp) && top.context.esp <= active[|active|-2].utf
                                 && !SpareInFrame(top))
  {
    assert StackedAt(active, |active| - 1);
  }

  lemma UnwindKeeps(mem: Memory, mem': Memory, active: seq<Active>, spare: nat, eip: nat)
    requires Stacked(active) && AllSaved(mem, active) && active != []
    requires spare == active[|active|-1].context.esp - 4
    requires mem' == Put(Put(mem, spare, eip), active[|active|-1].utf + 48, spare)
    ensures AllSaved(mem', active[..|active|-1]) && Stacked(active[..|active|-1])
  {
    var n := |active| - 1;
    var rest := active[..n];
    forall i: nat | i < |rest| ensures StackedAt(rest, i) { assert StackedAt(active, i); }
    forall i | 0 <= i < n ensures Saved(mem', active[i].utf, active[i].context) {
      Disjoint(active, i, n, spare);
      Disjoint(active, i, n, active[n].utf + 48);
      forall x: nat | active[i].utf <= x < active[i].utf + UTF_SIZE ensures Get(mem', x) == Get(mem, x) {
        assert x != spare && x != active[n].utf + 48;
      }
      SavedKept(mem, mem', active[i]);
    }
  }
}

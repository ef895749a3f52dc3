/**
  The reference-count discipline over the whole physical memory, as a theory about values:
  which words count as references to a page, and how each single store changes them.
*/
module PageRefs {
  import opened Mmu

  const NIL := -1

  datatype PageInfo = PageInfo(link: int, ref: nat)

  /** What the kernel uses a frame for.  Directories and tables point back at the one slot that
      refers to them, so no frame can be linked into two places. */
  datatype Kind = Data | Dir(env: nat) | Table(dir: nat, pdx: nat) | KernDir | KernTable(kpdx: nat)

  datatype Mem = Mem(frames: seq<Page>, kind: seq<Kind>, roots: seq<nat>, managed: set<nat>, kern: nat)

  /** A place that can hold a counted reference: env_pgdir of an environment, or a table word. */
  datatype Slot = Root(env: nat) | Entry(frame: nat, idx: nat)

  ghost predicate Shape(s: Mem) {
    && |s.kind| == |s.frames|
    && s.kern < |s.frames|
    && (forall f :: f in s.managed ==> f < |s.frames|)
    && 0 !in s.managed && s.kern !in s.managed
    && (forall f :: 0 <= f < |s.kind| ==> (s.kind[f] == KernDir <==> f == s.kern))
  }

  ghost predicate RootsOk(s: Mem)
    requires Shape(s)
  {
    && (forall e :: 0 <= e < |s.roots| && s.roots[e] != 0 ==>
          s.roots[e] < |s.frames| && s.kind[s.roots[e]] == Dir(e))
    && (forall d :: 0 <= d < |s.frames| && s.kind[d].Dir? ==>
          s.kind[d].env < |s.roots| && s.roots[s.kind[d].env] == d && d in s.managed)
  }

  ghost predicate TablesOk(s: Mem)
    requires Shape(s)
  {
    && (forall d, i :: 0 <= d < |s.frames| && 0 <= i < PDX_UTOP && s.kind[d].Dir? && Present(s.frames[d][i]) ==>
          s.frames[d][i].frame < |s.frames| && s.kind[s.frames[d][i].frame] == Table(d, i))
    && (forall t :: 0 <= t < |s.frames| && s.kind[t].Table? ==>
          && t in s.managed && s.kind[t].dir < |s.frames| && s.kind[t].pdx < PDX_UTOP
          && s.kind[s.kind[t].dir].Dir?
          && Present(s.frames[s.kind[t].dir][s.kind[t].pdx])
          && s.frames[s.kind[t].dir][s.kind[t].pdx].frame == t)
  }

  predicate KernIdx(i: int) { PDX_UTOP <= i < NENTRIES && i != PDX_UVPT }

  ghost predicate KernOk(s: Mem)
    requires Shape(s)
  {
    && (forall i :: KernIdx(i) && Present(s.frames[s.kern][i]) ==>
          s.frames[s.kern][i].frame < |s.frames| && s.kind[s.frames[s.kern][i].frame] == KernTable(i))
    && (forall t :: 0 <= t < |s.frames| && s.kind[t].KernTable? ==>
          && t in s.managed && KernIdx(s.kind[t].kpdx)
          && Present(s.frames[s.kern][s.kind[t].kpdx]) && s.frames[s.kern][s.kind[t].kpdx].frame == t)
    && (forall d, i :: 0 <= d < |s.frames| && KernIdx(i) && s.kind[d].Dir? ==> s.frames[d][i] == s.frames[s.kern][i])
    && (forall d :: 0 <= d < |s.frames| && s.kind[d].Dir? ==> s.frames[d][PDX_UVPT] == Word(d, PTE_U_P))
  }

  /** User page-table entries name ordinary data pages only. */
  ghost predicate LeavesOk(s: Mem)
    requires Shape(s)
  {
    forall t, j :: 0 <= t < |s.frames| && 0 <= j < NENTRIES && s.kind[t].Table? && Present(s.frames[t][j]) ==>
      s.frames[t][j].frame in s.managed && s.kind[s.frames[t][j].frame] == Data
  }

  ghost predicate Typed(s: Mem) {
    Shape(s) && RootsOk(s) && TablesOk(s) && KernOk(s) && LeavesOk(s)
  }

  /** Does this slot hold a counted reference? */
  predicate Live(s: Mem, c: Slot)
    requires |s.kind| == |s.frames|
  {
    match c
    case Root(e) => e < |s.roots| && s.roots[e] != 0
    case Entry(f, i) =>
      && f < |s.frames| && i < NENTRIES && Present(s.frames[f][i])
      && match s.kind[f] {
           case Data => false
           case Dir(_) => i < PDX_UTOP
           case Table(_, _) => true
           case KernDir => KernIdx(i)
           case KernTable(_) => false
         }
  }

  function Target(s: Mem, c: Slot): nat
    requires |s.kind| == |s.frames| && Live(s, c)
  {
    match c
    case Root(e) => s.roots[e]
    case Entry(f, i) => s.frames[f][i].frame
  }

  predicate RefersTo(s: Mem, c: Slot, p: nat)
    requires |s.kind| == |s.frames|
  {
    Live(s, c) && Target(s, c) == p
  }

  ghost function AllSlots(s: Mem): set<Slot> {
    (set e | 0 <= e < |s.roots| :: Root(e)) + (set f, i | 0 <= f < |s.frames| && 0 <= i < NENTRIES :: Entry(f, i))
  }

  /** The counted references to page p: PTEs and PDEs below UTOP, kernel page-table PDEs, directory roots. */
  ghost function Refs(s: Mem, p: nat): (r: set<Slot>)
    requires |s.kind| == |s.frames|
    ensures forall c :: c in r <==> RefersTo(s, c, p)
  {
    assert forall c :: Live(s, c) ==> c in AllSlots(s);
    set c | c in AllSlots(s) && RefersTo(s, c, p)
  }

  // ---------------------------------------------------------------- counts and the free list

  function Next(free: seq<nat>, k: nat): int { if k + 1 < |free| then free[k+1] else NIL }

  /** `free` is the chain that starts at `head` and follows pp_link. */
  ghost predicate Chain(pages: seq<PageInfo>, head: int, free: seq<nat>) {
    && head == (if free == [] then NIL else free[0])
    && (forall k :: 0 <= k < |free| ==> free[k] < |pages| && pages[free[k]].link == Next(free, k))
    && (forall k, l :: 0 <= k < l < |free| ==> free[k] != free[l])
  }

  ghost function RefCounts(s: Mem): map<nat, nat>
    requires |s.kind| == |s.frames|
  {
    map p | p in s.managed :: |Refs(s, p)|
  }

  /** pp_ref counts the references in memory plus those the kernel holds in its hands; `limbo` pages
      are allocated and not yet referenced. */
  ghost predicate Counted(count: map<nat, nat>, kind: seq<Kind>, pages: seq<PageInfo>, free: seq<nat>,
                          hold: multiset<nat>, limbo: set<nat>)
  {
    && |pages| == |kind|
    && (forall p :: p in count ==> p < |kind|)
    && (forall p :: p in hold ==> p in count)
    && (forall p :: p in limbo ==> p in count && p !in free && kind[p] == Data)
    && (forall p :: p in free ==> p in count && kind[p] == Data)
    && (forall p :: 0 <= p < |pages| && p !in count ==> pages[p] == PageInfo(NIL, 0))
    && (forall p :: p in count && p !in free ==> pages[p].link == NIL)
    && (forall p :: p in count ==> pages[p].ref == count[p] + hold[p] < MAXREF)
    && (forall p :: p in count ==> (pages[p].ref == 0 <==> p in free || p in limbo))
  }

  ghost predicate Inv(s: Mem, pages: seq<PageInfo>, head: int, free: seq<nat>, hold: multiset<nat>, limbo: set<nat>) {
    && Typed(s)
    && Chain(pages, head, free)
    && Counted(RefCounts(s), s.kind, pages, free, hold, limbo)
  }

  // ---------------------------------------------------------------- single stores

  function Store(s: Mem, f: nat, i: nat, w: Word): (r: Mem)
    requires f < |s.frames| && i < NENTRIES
  {
    s.(frames := s.frames[f := s.frames[f][i := w]])
  }

  function Credit(b: bool, c: Slot): set<Slot> { if b then {c} else {} }

  /** Overwriting one page-table entry moves exactly one reference. */
  lemma StoreEntryRefs(s: Mem, t: nat, j: nat, w: Word, p: nat)
    requires |s.kind| == |s.frames| && t < |s.frames| && j < NENTRIES && s.kind[t].Table?
    ensures Refs(Store(s, t, j, w), p) == Refs(s, p) - {Entry(t, j)} + Credit(Present(w) && w.frame == p, Entry(t, j))
  {
    var s' := Store(s, t, j, w);
    forall c ensures RefersTo(s', c, p) <==>
      (c != Entry(t, j) && RefersTo(s, c, p)) || (c == Entry(t, j) && Present(w) && w.frame == p)
    {
    }
  }

  lemma StoreEntryTables(s: Mem, t: nat, j: nat, w: Word)
    requires Shape(s) && TablesOk(s) && t < |s.frames| && j < NENTRIES && s.kind[t].Table?
    ensures TablesOk(Store(s, t, j, w))
  {
  }

  lemma StoreEntryKern(s: Mem, t: nat, j: nat, w: Word)
    requires Shape(s) && KernOk(s) && t < |s.frames| && j < NENTRIES && s.kind[t].Table?
    ensures KernOk(Store(s, t, j, w))
  {
  }

  lemma StoreEntryTyped(s: Mem, t: nat, j: nat, w: Word)
    requires Typed(s) && t < |s.frames| && j < NENTRIES && s.kind[t].Table?
    requires Present(w) ==> w.frame in s.managed && s.kind[w.frame] == Data
    ensures Typed(Store(s, t, j, w))
  {
    StoreEntryTables(s, t, j, w);
    StoreEntryKern(s, t, j, w);
  }

  /** Hanging a zeroed, unreferenced page under an empty directory entry. */
  function Attach(s: Mem, d: nat, i: nat, t: nat, w: Word): (r: Mem)
    requires d < |s.frames| && i < NENTRIES && t < |s.kind|
  {
    Store(s, d, i, w).(kind := s.kind[t := if d == s.kern then KernTable(i) else Table(d, i)])
  }

  predicate WalkSlot(s: Mem, d: nat, i: nat)
    requires |s.kind| == |s.frames|
  {
    d < |s.frames| && i < NENTRIES && ((s.kind[d].Dir? && i < PDX_UTOP) || (s.kind[d].KernDir? && KernIdx(i)))
  }

  ghost predicate Fresh(s: Mem, t: nat)
    requires |s.kind| == |s.frames|
  {
    t < |s.frames| && t in s.managed && s.kind[t] == Data && Refs(s, t) == {}
  }

  lemma AttachRefs(s: Mem, d: nat, i: nat, t: nat, w: Word, p: nat)
    requires Shape(s) && WalkSlot(s, d, i) && !Present(s.frames[d][i])
    requires Fresh(s, t) && s.frames[t] == ZEROPAGE && Present(w) && w.frame == t
    ensures Refs(Attach(s, d, i, t, w), p) == Refs(s, p) + Credit(p == t, Entry(d, i))
  {
    var s' := Attach(s, d, i, t, w);
    forall c ensures RefersTo(s', c, p) <==> (RefersTo(s, c, p) || (c == Entry(d, i) && p == t))
    {
    }
  }

  lemma FreshTarget(s: Mem, t: nat)
    requires Typed(s) && Fresh(s, t)
    ensures forall x, j :: 0 <= x < |s.frames| && 0 <= j < NENTRIES && s.kind[x].Table? && Present(s.frames[x][j]) ==>
              s.frames[x][j].frame != t
  {
    forall x, j | 0 <= x < |s.frames| && 0 <= j < NENTRIES && s.kind[x].Table? && Present(s.frames[x][j])
      ensures s.frames[x][j].frame != t
    {
      assert RefersTo(s, Entry(x, j), s.frames[x][j].frame);
    }
  }

  lemma AttachTables(s: Mem, d: nat, i: nat, t: nat, w: Word)
    requires Shape(s) && TablesOk(s) && WalkSlot(s, d, i) && !Present(s.frames[d][i])
    requires t < |s.frames| && t in s.managed && s.kind[t] == Data && s.frames[t] == ZEROPAGE && Present(w)
             && w.frame == t
    ensures TablesOk(Attach(s, d, i, t, w))
  {
  }

  lemma AttachKern(s: Mem, d: nat, i: nat, t: nat, w: Word)
    requires Shape(s) && KernOk(s) && WalkSlot(s, d, i) && !Present(s.frames[d][i])
    requires s.kind[d].KernDir? ==> forall x :: 0 <= x < |s.kind| ==> !s.kind[x].Dir?
    requires t < |s.frames| && t in s.managed && s.kind[t] == Data && s.frames[t] == ZEROPAGE && Present(w)
             && w.frame == t
    ensures KernOk(Attach(s, d, i, t, w))
  {
  }

  lemma AttachRoots(s: Mem, d: nat, i: nat, t: nat, w: Word)
    requires Shape(s) && RootsOk(s) && WalkSlot(s, d, i)
    requires t < |s.frames| && t in s.managed && s.kind[t] == Data
    ensures Shape(Attach(s, d, i, t, w)) && RootsOk(Attach(s, d, i, t, w))
  {
  }

  lemma AttachLeaves(s: Mem, d: nat, i: nat, t: nat, w: Word)
    requires Shape(s) && LeavesOk(s) && WalkSlot(s, d, i)
    requires t < |s.frames| && s.kind[t] == Data && s.frames[t] == ZEROPAGE && Shape(Attach(s, d, i, t, w))
    requires forall x, j :: 0 <= x < |s.frames| && 0 <= j < NENTRIES && s.kind[x].Table? && Present(s.frames[x][j]) ==>
               s.frames[x][j].frame != t
    ensures LeavesOk(Attach(s, d, i, t, w))
  {
  }

  lemma AttachTyped(s: Mem, d: nat, i: nat, t: nat, w: Word)
    requires Typed(s) && WalkSlot(s, d, i) && !Present(s.frames[d][i])
    requires s.kind[d].KernDir? ==> forall x :: 0 <= x < |s.kind| ==> !s.kind[x].Dir?
    requires Fresh(s, t) && s.frames[t] == ZEROPAGE && Present(w) && w.frame == t
    ensures Typed(Attach(s, d, i, t, w))
  {
    hide Shape, RootsOk, TablesOk, KernOk, LeavesOk, Attach, Refs;
    FreshTarget(s, t);
    AttachRoots(s, d, i, t, w);
    AttachLeaves(s, d, i, t, w);
    AttachTables(s, d, i, t, w);
    AttachKern(s, d, i, t, w);
  }

  /** Clearing a user directory entry whose table is empty. */
  function Detach(s: Mem, d: nat, i: nat): (r: Mem)
    requires d < |s.frames| && i < NENTRIES && s.frames[d][i].frame < |s.kind|
  {
    Store(s, d, i, NOTHING).(kind := s.kind[s.frames[d][i].frame := Data])
  }

  predicate EmptyTable(pt: Page) { forall j :: 0 <= j < NENTRIES ==> !Present(pt[j]) }

  lemma DetachRefs(s: Mem, d: nat, i: nat, p: nat)
    requires Typed(s) && d < |s.frames| && i < PDX_UTOP && s.kind[d].Dir? && Present(s.frames[d][i])
    requires EmptyTable(s.frames[s.frames[d][i].frame])
    ensures Refs(Detach(s, d, i), p) == Refs(s, p) - {Entry(d, i)}
  {
    var s' := Detach(s, d, i);
    forall c ensures RefersTo(s', c, p) <==> RefersTo(s, c, p) && c != Entry(d, i)
    {
    }
  }

  lemma DetachTables(s: Mem, d: nat, i: nat)
    requires Shape(s) && TablesOk(s) && d < |s.frames| && i < PDX_UTOP && s.kind[d].Dir? && Present(s.frames[d][i])
    ensures TablesOk(Detach(s, d, i))
  {
  }

  lemma DetachKern(s: Mem, d: nat, i: nat)
    requires Shape(s) && TablesOk(s) && KernOk(s)
    requires d < |s.frames| && i < PDX_UTOP && s.kind[d].Dir? && Present(s.frames[d][i])
    ensures KernOk(Detach(s, d, i))
  {
  }

  lemma DetachTyped(s: Mem, d: nat, i: nat)
    requires Typed(s) && d < |s.frames| && i < PDX_UTOP && s.kind[d].Dir? && Present(s.frames[d][i])
    requires EmptyTable(s.frames[s.frames[d][i].frame])
    ensures Typed(Detach(s, d, i))
  {
    DetachTables(s, d, i);
    DetachKern(s, d, i);
  }

  /** Giving environment e the directory d, already filled with the kernel's upper entries. */
  function SetRoot(s: Mem, e: nat, d: nat): (r: Mem)
    requires e < |s.roots| && d < |s.kind|
  {
    s.(roots := s.roots[e := d], kind := s.kind[d := Dir(e)])
  }

  predicate EmptyUser(pd: Page) { forall i :: 0 <= i < PDX_UTOP ==> !Present(pd[i]) }

  lemma SetRootRefs(s: Mem, e: nat, d: nat, p: nat)
    requires Typed(s) && e < |s.roots| && s.roots[e] == 0 && Fresh(s, d) && EmptyUser(s.frames[d])
    ensures Refs(SetRoot(s, e, d), p) == Refs(s, p) + Credit(p == d, Root(e))
  {
    var s' := SetRoot(s, e, d);
    forall c ensures RefersTo(s', c, p) <==> (RefersTo(s, c, p) || (c == Root(e) && p == d))
    {
    }
  }

  lemma SetRootTables(s: Mem, e: nat, d: nat)
    requires Shape(s) && TablesOk(s) && e < |s.roots| && d < |s.frames| && s.kind[d] == Data && EmptyUser(s.frames[d])
    ensures TablesOk(SetRoot(s, e, d))
  {
  }

  lemma SetRootKern(s: Mem, e: nat, d: nat)
    requires Shape(s) && KernOk(s) && e < |s.roots| && d < |s.frames| && s.kind[d] == Data && d in s.managed
    requires forall i :: KernIdx(i) ==> s.frames[d][i] == s.frames[s.kern][i]
    requires s.frames[d][PDX_UVPT] == Word(d, PTE_U_P)
    ensures KernOk(SetRoot(s, e, d))
  {
  }

  lemma SetRootTyped(s: Mem, e: nat, d: nat)
    requires Typed(s) && e < |s.roots| && s.roots[e] == 0 && Fresh(s, d) && EmptyUser(s.frames[d])
    requires forall i :: KernIdx(i) ==> s.frames[d][i] == s.frames[s.kern][i]
    requires s.frames[d][PDX_UVPT] == Word(d, PTE_U_P)
    ensures Typed(SetRoot(s, e, d))
  {
    FreshTarget(s, d);
    SetRootTables(s, e, d);
    SetRootKern(s, e, d);
  }

  /** Taking the directory away again, once its user part is empty. */
  function ClearRoot(s: Mem, e: nat): (r: Mem)
    requires e < |s.roots| && s.roots[e] < |s.kind|
  {
    s.(roots := s.roots[e := 0], kind := s.kind[s.roots[e] := Data])
  }

  lemma ClearRootRefs(s: Mem, e: nat, p: nat)
    requires Typed(s) && e < |s.roots| && s.roots[e] != 0 && EmptyUser(s.frames[s.roots[e]])
    ensures Refs(ClearRoot(s, e), p) == Refs(s, p) - {Root(e)}
  {
    var s' := ClearRoot(s, e);
    forall c ensures RefersTo(s', c, p) <==> RefersTo(s, c, p) && c != Root(e)
    {
    }
  }

  lemma ClearRootTables(s: Mem, e: nat)
    requires Shape(s) && RootsOk(s) && TablesOk(s) && e < |s.roots| && s.roots[e] != 0
             && EmptyUser(s.frames[s.roots[e]])
    ensures TablesOk(ClearRoot(s, e))
  {
  }

  lemma ClearRootKern(s: Mem, e: nat)
    requires Shape(s) && RootsOk(s) && KernOk(s) && e < |s.roots| && s.roots[e] != 0
    ensures KernOk(ClearRoot(s, e))
  {
  }

  lemma ClearRootTyped(s: Mem, e: nat)
    requires Typed(s) && e < |s.roots| && s.roots[e] != 0 && EmptyUser(s.frames[s.roots[e]])
    ensures Typed(ClearRoot(s, e))
  {
    ClearRootTables(s, e);
    ClearRootKern(s, e);
  }
}

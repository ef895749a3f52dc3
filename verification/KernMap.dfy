/** kern/pmap.c, boot_map_region: the static mappings above UTOP. */
module KernMap {
  import opened Mmu
  import opened PageRefs
  import opened PageCounts
  import opened Spaces
  import opened Pmap

  const VPNS := 1048576             // page numbers in the 32-bit address space

  /** A page number the kernel may map: above UTOP and not in the self-map. */
  predicate KernVpn(v: int) { 0 <= v < VPNS && KernIdx(v / NENTRIES) }

  /** Directory d under s' maps [va, va + n) to [pa, pa + n); every other kernel page is mapped as it was. */
  ghost predicate Mapped(s: Mem, s': Mem, va: nat, n: nat, pa: nat, perm: Flags)
    requires s.kern < |s.frames| && s'.kern < |s'.frames|
  {
    forall v: nat :: KernVpn(v) ==>
      Leaf(s'.frames, s'.kern, v) ==
        if va <= v < va + n then Word(pa + (v - va), perm.(p := true)) else Leaf(s.frames, s.kern, v)
  }

  lemma KernTables(s: Mem, v: nat)
    requires Typed(s) && KernVpn(v)
    ensures Pdx(v) == v / NENTRIES && |s.kind| == |s.frames| && s.kern < |s.frames| && WalkSlot(s, s.kern, Pdx(v))
            && s.kind[s.kern].KernDir?
    ensures Present(s.frames[s.kern][Pdx(v)]) ==>
              s.frames[s.kern][Pdx(v)].frame < |s.frames| && s.kind[s.frames[s.kern][Pdx(v)].frame] == KernTable(Pdx(v))
  {
  }

  /** Hanging an empty table changes no translation. */
  lemma WalkMapped(s: Mem, v: nat, t: nat)
    requires Typed(s) && KernVpn(v) && s.kern < |s.frames| && !Present(s.frames[s.kern][Pdx(v)])
    requires t < |s.frames| && |s.kind| == |s.frames| && s.kind[t] == Data
    ensures var s' := Attach(s.(frames := s.frames[t := ZEROPAGE]), s.kern, Pdx(v), t, Word(t, PTE_U_W_P));
            s'.kern == s.kern < |s'.frames| && forall u: nat :: KernVpn(u) ==>
                Leaf(s'.frames, s'.kern, u) == Leaf(s.frames, s.kern, u)
  {
    var s' := Attach(s.(frames := s.frames[t := ZEROPAGE]), s.kern, Pdx(v), t, Word(t, PTE_U_W_P));
    forall u: nat | KernVpn(u) ensures Leaf(s'.frames, s'.kern, u) == Leaf(s.frames, s.kern, u) {
      KernTables(s, u);
      KernTables(s, v);
    }
  }

  /** A store into a kernel page table changes one translation. */
  lemma StoreMapped(s: Mem, v: nat, w: Word)
    requires Typed(s) && KernVpn(v) && s.kern < |s.frames| && Present(s.frames[s.kern][Pdx(v)])
    ensures s.frames[s.kern][Pdx(v)].frame < |s.frames|
    ensures var s' := Store(s, s.frames[s.kern][Pdx(v)].frame, Ptx(v), w);
            forall u: nat :: KernVpn(u) ==>
                Leaf(s'.frames, s.kern, u) == if u == v then w else Leaf(s.frames, s.kern, u)
  {
    var t := s.frames[s.kern][Pdx(v)].frame;
    var s' := Store(s, t, Ptx(v), w);
    KernTables(s, v);
    forall u: nat | KernVpn(u) ensures Leaf(s'.frames, s.kern, u) == if u == v then w else Leaf(s.frames, s.kern, u) {
      KernTables(s, u);
      assert u == u / NENTRIES * NENTRIES + u % NENTRIES && v == v / NENTRIES * NENTRIES + v % NENTRIES;
    }
  }

  /** Page tables that [va, va + n) touches. */
  function TableSpan(va: nat, n: nat): nat { if n == 0 then 0 else (va + n - 1) / NENTRIES - va / NENTRIES + 1 }

  /** One page: the walk and the store. */
  method MapOne(m: PhysMem, v: nat, w: Word)
    requires m.Valid() && m.hold == multiset{} && m.limbo == {} && NoDirs(m.kind) && KernVpn(v)
    requires m.kern < m.frames.Length && (Present(m.frames[m.kern][Pdx(v)]) || m.free != [])
    modifies m`freeList, m`free, m`hold, m`limbo, m`kind, m.pages, m.frames
    ensures m.Valid() && m.hold == multiset{} && m.limbo == {} && NoDirs(m.kind)
    ensures forall u: nat :: KernVpn(u) ==>
              Leaf(m.frames[..], m.kern, u) == if u == v then w else Leaf(old(m.frames[..]), m.kern, u)
    ensures Present(m.frames[m.kern][Pdx(v)])
    ensures forall i :: 0 <= i < NENTRIES && Present(old(m.frames[m.kern])[i]) ==> Present(m.frames[m.kern][i])
    ensures m.free == if Present(old(m.frames[m.kern])[Pdx(v)]) then old(m.free) else old(m.free)[1..]
    ensures RefsKept(m.managed, old(m.pages[..]), old(m.free), m.pages[..])
  {
    hide Inv, Typed, Leaf;
    var pt := WalkKern(m, v);
    ghost var s := m.St();
    InvTyped(s, m.pages[..], m.freeList, m.free, m.hold, m.limbo);
    KernTables(s, v);
    StoreMapped(s, v, w);
    InvScrub(s, m.pages[..], m.freeList, m.free, m.hold, m.limbo, pt, m.frames[pt][Ptx(v) := w]);
    m.frames[pt] := m.frames[pt][Ptx(v) := w];
    assert m.St() == Store(s, pt, Ptx(v), w);
  }

  /** The walk alone changes no translation. */
  method WalkKern(m: PhysMem, v: nat) returns (pt: nat)
    requires m.Valid() && m.hold == multiset{} && m.limbo == {} && NoDirs(m.kind) && KernVpn(v)
    requires m.kern < m.frames.Length && (Present(m.frames[m.kern][Pdx(v)]) || m.free != [])
    modifies m`freeList, m`free, m`hold, m`limbo, m`kind, m.pages, m.frames
    ensures m.Valid() && m.hold == multiset{} && m.limbo == {} && NoDirs(m.kind)
    ensures forall u: nat :: KernVpn(u) ==>
              Leaf(m.frames[..], m.kern, u) == Leaf(old(m.frames[..]), m.kern, u)
    ensures Present(m.frames[m.kern][Pdx(v)]) && pt == m.frames[m.kern][Pdx(v)].frame
    ensures forall i :: 0 <= i < NENTRIES && Present(old(m.frames[m.kern])[i]) ==> Present(m.frames[m.kern][i])
    ensures m.free == if Present(old(m.frames[m.kern])[Pdx(v)]) then old(m.free) else old(m.free)[1..]
    ensures RefsKept(m.managed, old(m.pages[..]), old(m.free), m.pages[..])
  {
    hide Inv, Typed, Leaf;
    ghost var s := m.St();
    InvTyped(s, m.pages[..], m.freeList, m.free, m.hold, m.limbo);
    KernTables(s, v);
    pt := m.PgdirWalk(m.kern, v, true);
    if !Present(s.frames[s.kern][Pdx(v)]) {
      WalkMapped(s, v, pt);
      forall p: nat | p in m.managed && p !in old(m.free) && p < m.pages.Length {
        InvRefAfterAttach(s, old(m.pages[..]), old(m.freeList), old(m.free), m.St(), m.pages[..], m.freeList, m.free,
                          m.hold, m.limbo, m.kern, Pdx(v), pt, Word(pt, PTE_U_W_P), p);
      }
    }
  }

  /** boot_map_region, with enough free pages for the tables (the source does not test for NULL). */
  method BootMapRegion(m: PhysMem, va: nat, n: nat, pa: nat, perm: Flags)
    requires m.Valid() && m.hold == multiset{} && m.limbo == {} && NoDirs(m.kind)
    requires forall i :: va <= i < va + n ==> KernVpn(i)
    requires |m.free| >= TableSpan(va, n)
    modifies m`freeList, m`free, m`hold, m`limbo, m`kind, m.pages, m.frames
    ensures m.Valid() && m.hold == multiset{} && m.limbo == {} && NoDirs(m.kind)
    ensures m.kern < m.frames.Length && |old(m.St()).frames| == m.frames.Length
            && Mapped(old(m.St()), m.St(), va, n, pa, perm)
    ensures RefsKept(m.managed, old(m.pages[..]), old(m.free), m.pages[..])
  {
    hide Inv, Typed, RefsKept, Mapped, KernVpn, Leaf;
    InvTyped(m.St(), m.pages[..], m.freeList, m.free, m.hold, m.limbo);
    ghost var s0 := m.St();
    RefsSame(m.managed, m.pages[..], m.free);
    MappedStart(s0, va, pa, perm);
    for i := 0 to n
      invariant m.Valid() && m.hold == multiset{} && m.limbo == {} && NoDirs(m.kind) && m.kern < m.frames.Length
      invariant Mapped(s0, m.St(), va, i, pa, perm)
      invariant i > 0 ==> Present(m.frames[m.kern][Pdx(va + i - 1)])
      invariant |m.free| + TableSpan(va, i) >= |old(m.free)|
      invariant forall p: nat :: p in m.free ==> p in old(m.free)
      invariant RefsKept(m.managed, old(m.pages[..]), old(m.free), m.pages[..])
    {
      ghost var s, ps, fr := m.St(), m.pages[..], m.free;
      InVpns(va, n);
      SpanStep(va, i, n);
      MapOne(m, va + i, Word(pa + i, perm.(p := true)));
      MappedStep(s0, s, m.St(), va, i, pa, perm);
      RefsTrans(m.managed, old(m.pages[..]), old(m.free), ps, fr, m.pages[..]);
    }
  }

  lemma InVpns(va: nat, n: nat)
    requires n > 0 && forall i :: va <= i < va + n ==> KernVpn(i)
    ensures va + n <= VPNS
  {
    assert KernVpn(va + n - 1);
  }

  lemma MappedStart(s: Mem, va: nat, pa: nat, perm: Flags)
    requires s.kern < |s.frames|
    ensures Mapped(s, s, va, 0, pa, perm)
  {
  }

  lemma MappedStep(s0: Mem, s: Mem, s': Mem, va: nat, i: nat, pa: nat, perm: Flags)
    requires s0.kern < |s0.frames| && s.kern == s'.kern < |s.frames| == |s'.frames| && Mapped(s0, s, va, i, pa, perm)
    requires forall u: nat :: KernVpn(u) ==>
               Leaf(s'.frames, s'.kern, u) ==
                 if u == va + i then Word(pa + i, perm.(p := true)) else Leaf(s.frames, s.kern, u)
    ensures Mapped(s0, s', va, i + 1, pa, perm)
  {
    hide KernVpn, Leaf;
  }

  /** Page i either falls under the table of the page before it or starts a new one. */
  lemma SpanStep(va: nat, i: nat, n: nat)
    requires i < n && va + n <= VPNS
    ensures if i > 0 && Pdx(va + i) == Pdx(va + i - 1) then TableSpan(va, i + 1) == TableSpan(va, i)
            else TableSpan(va, i + 1) == TableSpan(va, i) + 1 && TableSpan(va, i) < TableSpan(va, n)
  {
  }

  lemma RefsTrans(managed: set<nat>, pages: seq<PageInfo>, free: seq<nat>, pages1: seq<PageInfo>, free1: seq<nat>,
                  pages2: seq<PageInfo>)
    requires RefsKept(managed, pages, free, pages1) && RefsKept(managed, pages1, free1, pages2)
    requires forall p: nat :: p in free1 ==> p in free
    ensures RefsKept(managed, pages, free, pages2)
  {
  }

  lemma RefsSame(managed: set<nat>, pages: seq<PageInfo>, free: seq<nat>)
    ensures RefsKept(managed, pages, free, pages)
  {
  }
}

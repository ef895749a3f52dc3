/** kern/env.c: building and tearing down the address space of an environment. */
module EnvVm {
  import opened Mmu
  import opened PageRefs
  import opened PageCounts
  import opened Spaces
  import opened Pmap

  /** Is slot c part of the address space of environment e (its root, its directory or its tables)? */
  predicate InEnv(s: Mem, e: nat, c: Slot)
    requires |s.kind| == |s.frames| && e < |s.roots|
  {
    match c
    case Root(x) => x == e
    case Entry(f, i) =>
      f < |s.frames| && ((f == s.roots[e] && i < PDX_UTOP) || (s.kind[f].Table? && s.kind[f].dir == s.roots[e]))
  }

  predicate TableOf(s: Mem, f: nat, d: nat, lo: nat, hi: nat)
    requires f < |s.kind|
  {
    s.kind[f].Table? && s.kind[f].dir == d && lo <= s.kind[f].pdx < hi
  }

  /** How far the two loops of env_free have come: directory entries below k are gone with their
      tables, and the first j entries of table k are empty.  Everything else is as it was. */
  ghost predicate Cleared(s0: Mem, s: Mem, d: nat, k: nat, j: nat) {
    && |s0.frames| == |s.frames| == |s0.kind| == |s.kind| && d < |s.frames|
    && s.roots == s0.roots && s.managed == s0.managed && s.kern == s0.kern
    && (forall f :: 0 <= f < |s.kind| ==> s.kind[f] == if TableOf(s0, f, d, 0, k) then Data else s0.kind[f])
    && (forall f :: 0 <= f < |s.frames| && f != d && !TableOf(s0, f, d, 0, k + 1) ==> s.frames[f] == s0.frames[f])
    && (forall i :: 0 <= i < NENTRIES ==> if i < k then !Present(s.frames[d][i]) else s.frames[d][i] == s0.frames[d][i])
    && (forall t, x :: 0 <= t < |s.frames| && 0 <= x < NENTRIES && TableOf(s0, t, d, k, k + 1) ==>
          if x < j then !Present(s.frames[t][x]) else s.frames[t][x] == s0.frames[t][x])
  }

  lemma ClearedStart(s: Mem, d: nat)
    requires |s.frames| == |s.kind| && d < |s.frames|
    ensures Cleared(s, s, d, 0, 0)
  {
  }

  lemma ClearedEntry(s0: Mem, s: Mem, d: nat, k: nat, j: nat, t: nat)
    requires Cleared(s0, s, d, k, j) && k < PDX_UTOP && j < NENTRIES && t < |s.frames| && t != d
    requires forall f :: 0 <= f < |s.kind| && s0.kind[f] == Table(d, k) ==> f == t
    requires TableOf(s0, t, d, k, k + 1)
    ensures Cleared(s0, Store(s, t, j, NOTHING), d, k, j + 1)
  {
    var s' := Store(s, t, j, NOTHING);
    assert forall f :: 0 <= f < |s.frames| && f != t ==> s'.frames[f] == s.frames[f];
    assert forall x :: 0 <= x < NENTRIES && x != j ==> s'.frames[t][x] == s.frames[t][x];
  }

  lemma ClearedHole(s0: Mem, s: Mem, d: nat, k: nat, j: nat, t: nat)
    requires Cleared(s0, s, d, k, j) && k < PDX_UTOP && j < NENTRIES && t < |s.frames|
    requires forall f :: 0 <= f < |s.kind| && s0.kind[f] == Table(d, k) ==> f == t
    requires !Present(s.frames[t][j])
    ensures Cleared(s0, s, d, k, j + 1)
  {
  }

  lemma OneTable(s0: Mem, s: Mem, d: nat, k: nat, j: nat, t: nat)
    requires Cleared(s0, s, d, k, j) && Typed(s0) && s0.kind[d].Dir? && k < PDX_UTOP
    requires Present(s.frames[d][k]) && t == s.frames[d][k].frame
    ensures t < |s.frames| && t != d && TableOf(s0, t, d, k, k + 1)
    ensures forall f :: 0 <= f < |s.kind| && s0.kind[f] == Table(d, k) ==> f == t
  {
  }

  lemma ClearedTable(s0: Mem, s: Mem, d: nat, k: nat)
    requires Typed(s0) && d < |s0.frames| && s0.kind[d].Dir? && k < PDX_UTOP
    requires Cleared(s0, s, d, k, NENTRIES) && Present(s.frames[d][k]) && s.frames[d][k].frame < |s.kind|
    ensures Cleared(s0, Detach(s, d, k), d, k + 1, 0)
  {
    assert s0.kind[s.frames[d][k].frame] == Table(d, k);
  }

  lemma ClearedSkip(s0: Mem, s: Mem, d: nat, k: nat)
    requires Typed(s0) && d < |s0.frames| && s0.kind[d].Dir? && k < PDX_UTOP
    requires Cleared(s0, s, d, k, 0) && !Present(s.frames[d][k])
    ensures Cleared(s0, s, d, k + 1, 0)
  {
    forall f | 0 <= f < |s0.frames|
      ensures TableOf(s0, f, d, 0, k + 1) == TableOf(s0, f, d, 0, k)
    {
    }
  }

  /** What is left after both loops and the release of the directory. */
  ghost predicate Freed(s0: Mem, s: Mem, e: nat)
    requires e < |s0.roots|
  {
    var d := s0.roots[e];
    && |s0.frames| == |s.frames| == |s0.kind| == |s.kind| && d < |s.frames|
    && s.roots == s0.roots[e := 0] && s.managed == s0.managed && s.kern == s0.kern
    && (forall f :: 0 <= f < |s.kind| ==>
          s.kind[f] == if f == d || TableOf(s0, f, d, 0, PDX_UTOP) then Data else s0.kind[f])
    && (forall f :: 0 <= f < |s.frames| && f != d && !TableOf(s0, f, d, 0, PDX_UTOP) ==> s.frames[f] == s0.frames[f])
  }

  lemma ClearedAll(s0: Mem, s: Mem, e: nat)
    requires Typed(s0) && e < |s0.roots| && s0.roots[e] != 0
    requires Cleared(s0, s, s0.roots[e], PDX_UTOP, 0)
    ensures s.roots == s0.roots && s.roots[e] < |s.kind| && EmptyUser(s.frames[s.roots[e]])
    ensures Freed(s0, ClearRoot(s, e), e)
  {
  }

  lemma FreedRoots(s0: Mem, s: Mem, e: nat)
    requires e < |s0.roots| && Freed(s0, s, e)
    ensures s.roots == s0.roots[e := 0]
  {
  }

  /** env_free removes exactly the references that lie in the environment's own address space. */
  lemma FreedRefs(s0: Mem, s: Mem, e: nat, p: nat)
    requires Typed(s0) && e < |s0.roots| && s0.roots[e] != 0 && Freed(s0, s, e)
    ensures Refs(s, p) == set c | c in Refs(s0, p) && !InEnv(s0, e, c)
  {
    forall c ensures RefersTo(s, c, p) <==> RefersTo(s0, c, p) && !InEnv(s0, e, c)
    {
    }
  }

  /** No other environment and no kernel table notices. */
  lemma FreedOthers(s0: Mem, s: Mem, e: nat)
    requires Typed(s0) && e < |s0.roots| && s0.roots[e] != 0 && Freed(s0, s, e)
    ensures OtherSpaces(s0, s, s0.roots[e]) && SameData(s0, s, {})
    ensures s.frames[s.kern] == s0.frames[s.kern]
    ensures forall t :: 0 <= t < |s.frames| && s0.kind[t].KernTable? ==>
              s.frames[t] == s0.frames[t] && s.kind[t] == s0.kind[t]
  {
    forall x | 0 <= x < |s.frames| && x != s0.roots[e] && s0.kind[x].Dir?
      ensures Space(s.frames, x) == Space(s0.frames, x)
    {
      forall v | 0 <= v < UTOP_VPN
        ensures Leaf(s.frames, x, v) == Leaf(s0.frames, x, v)
      {
        SplitVpn(v);
      }
      SameLeaves(s0.frames, s.frames, x);
    }
  }

  /** With nothing in flight, pp_ref is the number of references in memory, and a page is on the
      free list exactly when nothing refers to it. */
  lemma FreeIffUnreferenced(s: Mem, pages: seq<PageInfo>, head: int, free: seq<nat>, p: nat)
    requires Inv(s, pages, head, free, multiset{}, {}) && p in s.managed
    ensures |s.kind| == |s.frames| && p < |pages| && pages[p].ref == |Refs(s, p)|
    ensures p in free <==> Refs(s, p) == {}
  {
    assert RefCounts(s)[p] == |Refs(s, p)|;
  }

  /** Page p is referenced, and only from inside the address space of environment e. */
  ghost predicate HeldOnlyBy(s: Mem, e: nat, p: nat)
    requires |s.kind| == |s.frames| && e < |s.roots|
  {
    Refs(s, p) != {} && forall c :: c in Refs(s, p) ==> InEnv(s, e, c)
  }

  /** env_free returns exactly what the environment held: the pages whose every reference was its own.
      A shared page loses exactly its references from this address space. */
  lemma EnvFreeExact(s0: Mem, pages0: seq<PageInfo>, head0: int, free0: seq<nat>,
                     s: Mem, pages: seq<PageInfo>, head: int, free: seq<nat>, e: nat, p: nat)
    requires Inv(s0, pages0, head0, free0, multiset{}, {}) && Inv(s, pages, head, free, multiset{}, {})
    requires e < |s0.roots| && s0.roots[e] != 0 && Freed(s0, s, e) && p in s0.managed && p in s.managed
    ensures |s0.kind| == |s0.frames|
    ensures p in free <==> p in free0 || HeldOnlyBy(s0, e, p)
    ensures p < |pages| && pages[p].ref == |set c | c in Refs(s0, p) && !InEnv(s0, e, c)|
  {
    hide Inv, Typed, Freed, Refs, InEnv;
    InvTyped(s0, pages0, head0, free0, multiset{}, {});
    FreeIffUnreferenced(s0, pages0, head0, free0, p);
    FreeIffUnreferenced(s, pages, head, free, p);
    FreedRefs(s0, s, e, p);
    assert forall c :: c in Refs(s, p) <==> c in Refs(s0, p) && !InEnv(s0, e, c);
  }

  method EnvFreeTable(m: PhysMem, ghost s0: Mem, d: nat, pdeno: nat)
    requires m.Valid() && m.hold == multiset{} && m.limbo == {}
    requires Typed(s0) && d < m.frames.Length && pdeno < PDX_UTOP && d < |s0.kind| && s0.kind[d].Dir?
    requires Cleared(s0, m.St(), d, pdeno, 0) && Present(m.frames[d][pdeno])
    modifies m`freeList, m`free, m`hold, m`limbo, m`kind, m.pages, m.frames
    ensures m.Valid() && m.hold == multiset{} && m.limbo == {}
    ensures Cleared(s0, m.St(), d, pdeno + 1, 0)
  {
    hide Inv, Typed, Shape, Cleared, Space, OtherSpaces, SameData, Refs;
    var pt := m.frames[d][pdeno].frame;
    OneTable(s0, m.St(), d, pdeno, 0, pt);
    for pteno := 0 to NENTRIES
      invariant m.Valid() && m.hold == multiset{} && m.limbo == {}
      invariant Cleared(s0, m.St(), d, pdeno, pteno)
      invariant d < m.frames.Length && Present(m.frames[d][pdeno]) && m.frames[d][pdeno].frame == pt
                && pt < m.frames.Length
    {
      ghost var s := m.St();
      ClearedShape(s0, s, d, pdeno, pteno);
      if Present(m.frames[pt][pteno]) {
        JoinVpn(pdeno, pteno);
        InvTyped(s, m.pages[..], m.freeList, m.free, m.hold, m.limbo);
        Translate(s, d, Vpn(pdeno, pteno));
        m.PageRemove(d, Vpn(pdeno, pteno));
        StoreTwice(s, d, pt, pteno, NOTHING, NOTHING);
        ClearedEntry(s0, s, d, pdeno, pteno, pt);
      } else {
        ClearedHole(s0, s, d, pdeno, pteno, pt);
      }
    }
    ghost var s := m.St();
    ClearedShape(s0, s, d, pdeno, NENTRIES);
    ClearedEmpty(s0, s, d, pdeno, pt);
    InvDetach(s, m.pages[..], m.freeList, m.free, m.hold, m.limbo, d, pdeno);
    ClearedTable(s0, s, d, pdeno);
    m.frames[d] := m.frames[d][pdeno := NOTHING];
    m.kind, m.hold := m.kind[pt := Data], m.hold + multiset{pt};
    assert m.St() == Detach(s, d, pdeno);
    m.PageDecref(pt);
  }

  lemma ClearedShape(s0: Mem, s: Mem, d: nat, k: nat, j: nat)
    requires Cleared(s0, s, d, k, j) && Typed(s0) && d < |s0.kind| && s0.kind[d].Dir? && k < PDX_UTOP
    ensures |s.frames| == |s.kind| && d < |s.frames| && s.kind[d] == s0.kind[d]
    ensures |s0.frames| == |s.frames|
    ensures Present(s.frames[d][k]) ==>
              s.frames[d][k].frame < |s.frames| && s.frames[d][k].frame != d
              && TableOf(s0, s.frames[d][k].frame, d, k, k + 1)
    ensures Present(s.frames[d][k]) ==>
              forall f :: 0 <= f < |s.kind| && s0.kind[f] == Table(d, k) ==> f == s.frames[d][k].frame
  {
  }

  lemma ClearedEmpty(s0: Mem, s: Mem, d: nat, k: nat, t: nat)
    requires Cleared(s0, s, d, k, NENTRIES) && t < |s.frames| && TableOf(s0, t, d, k, k + 1)
    ensures EmptyTable(s.frames[t])
  {
  }

  /** env_free: unmaps every user page, frees every page table and then the directory. */
  method EnvFree(m: PhysMem, e: nat)
    requires m.Valid() && m.hold == multiset{} && m.limbo == {}
    requires e < m.pgdirs.Length && m.pgdirs[e] != 0
    modifies m`freeList, m`free, m`hold, m`limbo, m`kind, m.pages, m.frames, m.pgdirs
    ensures m.Valid() && m.hold == multiset{} && m.limbo == {}
    ensures Freed(old(m.St()), m.St(), e)
    ensures |old(m.St()).kind| == |old(m.St()).frames|
    ensures forall p :: p in m.managed ==>
              (p in m.free <==> p in old(m.free) || HeldOnlyBy(old(m.St()), e, p))
    ensures OtherSpaces(old(m.St()), m.St(), old(m.pgdirs[e])) && SameData(old(m.St()), m.St(), {})
  {
    hide Inv, Typed, Shape, Cleared, Freed, Refs, OtherSpaces, SameData, InEnv, HeldOnlyBy;
    ghost var s0 := m.St();
    InvTyped(s0, m.pages[..], m.freeList, m.free, m.hold, m.limbo);
    var d := m.pgdirs[e];
    RootIsDir(s0, e);
    ClearedStart(s0, d);
    for pdeno := 0 to PDX_UTOP
      invariant m.Valid() && m.hold == multiset{} && m.limbo == {}
      invariant Cleared(s0, m.St(), d, pdeno, 0)
    {
      ClearedShape(s0, m.St(), d, pdeno, 0);
      if !Present(m.frames[d][pdeno]) {
        ClearedSkip(s0, m.St(), d, pdeno);
        continue;
      }
      EnvFreeTable(m, s0, d, pdeno);
    }
    ghost var s := m.St();
    ClearedAll(s0, s, e);
    InvClearRoot(s, m.pages[..], m.freeList, m.free, m.hold, m.limbo, e);
    m.pgdirs[e] := 0;
    m.kind, m.hold := m.kind[d := Data], m.hold + multiset{d};
    assert m.St() == ClearRoot(s, e);
    m.PageDecref(d);
    FreedOthers(s0, m.St(), e);
    forall p | p in m.managed
      ensures p in m.free <==> p in old(m.free) || HeldOnlyBy(s0, e, p)
    {
      EnvFreeExact(s0, old(m.pages[..]), old(m.freeList), old(m.free), m.St(), m.pages[..], m.freeList, m.free, e, p);
    }
  }

  lemma RootIsDir(s: Mem, e: nat)
    requires Typed(s) && e < |s.roots| && s.roots[e] != 0
    ensures |s.frames| == |s.kind| && s.roots[e] < |s.frames| && s.kind[s.roots[e]] == Dir(e)
  {
  }

  lemma SetupSpaces(s: Mem, p: nat, page: Page, e: nat)
    requires Typed(s) && p < |s.frames| && s.kind[p] == Data && e < |s.roots| && EmptyUser(page)
    ensures SameSpaces(s, SetRoot(s.(frames := s.frames[p := page]), e, p))
    ensures SameData(s, SetRoot(s.(frames := s.frames[p := page]), e, p), {p})
    ensures Space(s.frames[p := page], p) == map[]
  {
    forall x | 0 <= x < |s.frames| && s.kind[x].Dir? {
      TypedScrub(s, p, page, x);
    }
    var frames' := s.frames[p := page];
    forall v | 0 <= v < UTOP_VPN
      ensures !Present(Leaf(frames', p, v))
    {
      SplitVpn(v);
    }
  }

  /** env_setup_vm: a directory whose user part is empty and whose upper part is the kernel's.
      (env_pgdir is stored last here; nothing reads it before the function returns.) */
  method EnvSetupVm(m: PhysMem, e: nat) returns (r: int)
    requires m.Valid() && m.hold == multiset{} && m.limbo == {}
    requires e < m.pgdirs.Length && m.pgdirs[e] == 0
    modifies m`freeList, m`free, m`hold, m`limbo, m`kind, m.pages, m.frames, m.pgdirs
    ensures m.Valid() && m.hold == multiset{} && m.limbo == {}
    ensures r == if old(m.free) == [] then -E_NO_MEM else OK
    ensures r != OK ==> m.St() == old(m.St()) && m.free == old(m.free) && m.pages[..] == old(m.pages[..])
    ensures r == OK ==>
              && m.free == old(m.free)[1..] && m.pgdirs[..] == old(m.pgdirs[..])[e := old(m.free)[0]]
              && 0 != m.pgdirs[e] < m.frames.Length == |m.kind| && m.kind[m.pgdirs[e]] == Dir(e)
              && m.User(m.pgdirs[e]) == map[]
              && m.kern < m.frames.Length && UpperHalf(m.frames[m.pgdirs[e]], m.frames[m.kern], m.pgdirs[e])
              && SameSpaces(old(m.St()), m.St()) && SameData(old(m.St()), m.St(), {old(m.free)[0]})
  {
    hide Inv, Typed, Shape, Space, SameSpaces, SameData;
    ghost var s0 := m.St();
    InvHead(s0, m.pages[..], m.freeList, m.free, m.hold, m.limbo);
    var p := m.PageAlloc(true);
    if p == NIL {
      return -E_NO_MEM;
    }
    InvHead(m.St(), m.pages[..], m.freeList, m.free, m.hold, m.limbo);
    m.TakeRef(p);
    FillUpper(m, p);
    InvTyped(s0, old(m.pages[..]), old(m.freeList), old(m.free), multiset{}, {});
    SetupSpaces(s0, p, m.frames[p], e);
    ghost var s := m.St();
    InstallRoot(m, e, p);
    assert s.frames == s0.frames[p := s.frames[p]];
    r := OK;
  }

  /** e->env_pgdir = page2kva(p) */
  method InstallRoot(m: PhysMem, e: nat, p: nat)
    requires m.Valid() && m.hold == multiset{p} && m.limbo == {} && p in m.managed && p < m.pages.Length
             && m.pages[p].ref == 1
    requires e < m.pgdirs.Length && m.pgdirs[e] == 0 && p < m.frames.Length && EmptyUser(m.frames[p])
    requires m.kern < m.frames.Length && forall i :: KernIdx(i) ==> m.frames[p][i] == m.frames[m.kern][i]
    requires m.frames[p][PDX_UVPT] == Word(p, PTE_U_P)
    modifies m`hold, m`kind, m.pgdirs
    ensures m.Valid() && m.hold == multiset{} && m.limbo == {} && p < |old(m.kind)| && p != 0
    ensures m.St() == SetRoot(old(m.St()), e, p) && m.pgdirs[..] == old(m.pgdirs[..])[e := p]
            && m.kind == old(m.kind)[p := Dir(e)]
  {
    hide Inv, Typed, Shape, Space;
    ghost var s := m.St();
    InvHead(s, m.pages[..], m.freeList, m.free, m.hold, m.limbo);
    InvFresh(s, m.pages[..], m.freeList, m.free, m.hold, m.limbo, p);
    InvSetRoot(s, m.pages[..], m.freeList, m.free, m.hold, m.limbo, e, p);
    m.pgdirs[e] := p;
    m.kind, m.hold := m.kind[p := Dir(e)], m.hold - multiset{p};
    assert m.St() == SetRoot(s, e, p);
  }

  /** Entry by entry: from UTOP on the kernel's own, but for the self-map, which maps the directory read-only. */
  predicate UpperHalf(dir: Page, kern: Page, d: nat) {
    && (forall i :: 955 <= i < NENTRIES && i != 957 ==> dir[i] == kern[i])
    && dir[957].frame == d && dir[957].flags.p && dir[957].flags.u && !dir[957].flags.w
  }

  /** The loop that copies the kernel's directory entries, then the self-map at UVPT. */
  method FillUpper(m: PhysMem, p: nat)
    requires m.Valid() && p < m.frames.Length && m.frames[p] == ZEROPAGE && p < |m.kind| && m.kind[p] == Data
    modifies m.frames
    ensures m.Valid() && |old(m.frames[..])| == m.frames.Length && m.frames[..] == old(m.frames[..])[p := m.frames[p]]
    ensures EmptyUser(m.frames[p]) && m.frames[p][PDX_UVPT] == Word(p, PTE_U_P)
    ensures m.kern < m.frames.Length && forall i :: KernIdx(i) ==> m.frames[p][i] == m.frames[m.kern][i]
    ensures UpperHalf(m.frames[p], m.frames[m.kern], p)
  {
    hide Inv, Typed;
    ghost var s0 := m.St();
    InvTyped(s0, m.pages[..], m.freeList, m.free, m.hold, m.limbo);
    for i := PDX_UTOP to NENTRIES
      invariant m.Valid() && m.kern < m.frames.Length && m.kern != p
      invariant m.frames[..] == s0.frames[p := m.frames[p]]
      invariant EmptyUser(m.frames[p])
      invariant forall x :: PDX_UTOP <= x < i ==> m.frames[p][x] == m.frames[m.kern][x]
    {
      CopyEntry(m, p, i, m.frames[m.kern][i]);
    }
    CopyEntry(m, p, PDX_UVPT, Word(p, PTE_U_P));
  }

  method CopyEntry(m: PhysMem, p: nat, i: nat, w: Word)
    requires m.Valid() && p < m.frames.Length && p < |m.kind| && m.kind[p] == Data && i < NENTRIES
    modifies m.frames
    ensures m.Valid() && |old(m.frames[..])| == m.frames.Length
    ensures m.frames[..] == old(m.frames[..])[p := old(m.frames[p])[i := w]]
  {
    hide Inv;
    InvScrub(m.St(), m.pages[..], m.freeList, m.free, m.hold, m.limbo, p, m.frames[p][i := w]);
    m.frames[p] := m.frames[p][i := w];
    assert m.St() == old(m.St()).(frames := old(m.St()).frames[p := old(m.frames[p])[i := w]]);
  }
}

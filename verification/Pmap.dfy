/** kern/pmap.c: the page allocator, reference counts and the two-level page tables, updated in place. */
module Pmap {
  import opened Mmu
  import opened PageRefs
  import opened PageCounts
  import opened Spaces

  const OK := 0
  const E_BAD_ENV := 2
  const E_INVAL := 3
  const E_NO_MEM := 4
  const E_NO_FREE_ENV := 5
  const E_IPC_NOT_RECV := 7

  ghost predicate NoDirs(kind: seq<Kind>) { forall x :: 0 <= x < |kind| ==> !kind[x].Dir? }

  /** page_insert moves the count of the inserted page by one, unless the page was already there. */
  lemma InsertRef(s: Mem, pages: seq<PageInfo>, head: int, free: seq<nat>,
                  s': Mem, pages': seq<PageInfo>, head': int, free': seq<nat>,
                  hold: multiset<nat>, limbo: set<nat>, limbo': set<nat>, d: nat, va: nat, w: Word)
    requires Inv(s, pages, head, free, hold, limbo) && Inv(s', pages', head', free', hold, limbo')
    requires d < |s.frames| && d < |s.kind| && s.kind[d].Dir? && va < UTOP_VPN && Present(s.frames[d][Pdx(va)])
    requires s.frames[d][Pdx(va)].frame < |s.frames| && s' == Store(s, s.frames[d][Pdx(va)].frame, Ptx(va), w)
    requires Present(w) && w.frame in s.managed && w.frame < |pages| && w.frame < |pages'|
    ensures va in Space(s.frames, d) && Space(s.frames, d)[va].frame == w.frame ==>
              pages'[w.frame].ref == pages[w.frame].ref
    ensures !(va in Space(s.frames, d) && Space(s.frames, d)[va].frame == w.frame) ==>
              pages'[w.frame].ref == pages[w.frame].ref + 1
  {
    hide Inv, Typed;
    InvTyped(s, pages, head, free, hold, limbo);
    Translate(s, d, va);
    InvRefAfterStore(s, pages, head, free, s', pages', head', free', hold, limbo, limbo',
                     s.frames[d][Pdx(va)].frame, Ptx(va), w, w.frame);
  }

  class PhysMem {
    const pages: array<PageInfo>      // pages[]
    const frames: array<Page>         // the contents of physical memory, page by page
    const pgdirs: array<nat>          // env_pgdir of each environment, 0 for none
    const kern: nat                   // kern_pgdir
    var freeList: int                 // page_free_list
    ghost const managed: set<nat>     // the pages handed to the allocator by page_init
    ghost var free: seq<nat>
    ghost var kind: seq<Kind>
    ghost var hold: multiset<nat>     // references the kernel has counted and not yet stored
    ghost var limbo: set<nat>         // pages allocated and not yet counted

    ghost function St(): Mem
      reads this, frames, pgdirs
    {
      Mem(frames[..], kind, pgdirs[..], managed, kern)
    }

    ghost predicate Valid()
      reads this, pages, frames, pgdirs
    {
      Inv(St(), pages[..], freeList, free, hold, limbo)
    }

    /** The address space of a directory. */
    ghost function User(d: nat): map<nat, Word>
      requires d < frames.Length
      reads this, frames
    {
      Space(frames[..], d)
    }

    /** mem_init up to page_init: kern_pgdir holds only its self-map and every count is zero. */
    constructor (boot: seq<Page>, basemem: nat, pgnum: nat, kern: nat, nenv: nat)
      requires 0 < basemem <= kern < pgnum <= |boot| && kern != MPENTRY_PGNUM
      requires boot[kern] == ZEROPAGE[PDX_UVPT := Word(kern, PTE_U_P)]
      ensures Valid() && hold == multiset{} && limbo == {}
      ensures frames[..] == boot && this.kern == kern && pgdirs.Length == nenv
      ensures kind == BootKind(|boot|, kern) && managed == HandedPages(|boot|, basemem, pgnum)
      ensures forall p: nat :: p in free <==> p in managed
      ensures forall e :: 0 <= e < nenv ==> pgdirs[e] == 0
      ensures fresh(pages) && fresh(frames) && fresh(pgdirs)
    {
      pages := new PageInfo[|boot|](_ => PageInfo(NIL, 0));
      frames := new Page[|boot|](i requires 0 <= i < |boot| => boot[i]);
      pgdirs := new nat[nenv](_ => 0);
      this.kern := kern;
      managed := HandedPages(|boot|, basemem, pgnum);
      kind := BootKind(|boot|, kern);
      freeList, free, hold, limbo := NIL, [], multiset{}, {};
      new;
      assert frames[..] == boot;
      PageInit(basemem, pgnum);
    }

    /** The loop of page_init pushes the usable pages one by one. */
    method PageInit(basemem: nat, pgnum: nat)
      requires BootState(St()) && pages.Length == frames.Length && freeList == NIL && free == [] && hold == multiset{}
               && limbo == {}
      requires managed == HandedPages(pages.Length, basemem, pgnum)
      requires forall p :: 0 <= p < pages.Length ==> pages[p] == PageInfo(NIL, 0)
      modifies `freeList, `free, pages
      ensures Valid()
      ensures forall p: nat :: p in free <==> p in managed
      ensures forall p: nat :: p in free <==>
                0 < p < pages.Length && !(basemem <= p < pgnum) && p != MPENTRY_PGNUM
    {
      hide BootState, Inv;
      var i := 1;
      while i < pages.Length
        invariant 1 <= i
        invariant Chain(pages[..], freeList, free)
        invariant forall p: nat :: p in free <==> p < i && p < pages.Length && Handed(p, basemem, pgnum)
        invariant forall p :: 0 <= p < pages.Length ==> pages[p].ref == 0 && (p !in free ==> pages[p].link == NIL)
      {
        if Handed(i, basemem, pgnum) {
          ghost var ps := pages[..];
          ChainPush(ps, freeList, free, i);
          pages[i] := PageInfo(freeList, 0);
          assert pages[..] == ps[i := ps[i].(link := freeList)];
          freeList, free := i, [i] + free;
        }
        i := i + 1;
      }
      BootInv(St(), pages[..], freeList, free);
    }

    method PageAlloc(zero: bool) returns (pp: int)
      requires Valid()
      modifies `freeList, `free, `limbo, pages, frames
      ensures Valid()
      ensures old(free) == [] ==>
                pp == NIL && free == [] && limbo == old(limbo) && St() == old(St()) && pages[..] == old(pages[..])
      ensures old(free) != [] ==>
                && 0 <= pp < frames.Length && pp == old(free)[0] && free == old(free)[1..] && limbo == old(limbo) + {pp}
                && St() == old(St()).(frames := if zero then old(frames[..])[pp := ZEROPAGE] else old(frames[..]))
    {
      hide Inv;
      pp := NIL;
      InvHead(St(), pages[..], freeList, free, hold, limbo);
      if freeList != NIL {
        pp := freeList;
        ghost var s, ps := St(), pages[..];
        InvAlloc(s, ps, freeList, free, hold, limbo);
        freeList := pages[pp].link;
        pages[pp] := pages[pp].(link := NIL);
        free, limbo := free[1..], limbo + {pp};
        assert pages[..] == ps[pp := ps[pp].(link := NIL)];
        if zero {
          InvScrub(s, pages[..], freeList, free, hold, limbo, pp, ZEROPAGE);
          frames[pp] := ZEROPAGE;
          assert frames[..] == s.frames[pp := ZEROPAGE];
        }
      }
    }

    method PageFree(pp: nat)
      requires Valid() && pp in limbo
      modifies `freeList, `free, `limbo, pages
      ensures Valid() && free == [pp] + old(free) && limbo == old(limbo) - {pp}
    {
      assert pp < pages.Length && pages[pp].ref == 0 && pages[pp].link == NIL;
      ghost var ps := pages[..];
      InvFree(St(), ps, freeList, free, hold, limbo, pp);
      pages[pp] := pages[pp].(link := freeList);
      freeList := pp;
      free, limbo := [pp] + free, limbo - {pp};
      assert pages[..] == ps[pp := ps[pp].(link := old(freeList))];
    }

    /** Drops one of the references the kernel holds; the last one frees the page. */
    method PageDecref(pp: nat)
      requires Valid() && pp in hold
      modifies `freeList, `free, `hold, `limbo, pages
      ensures Valid() && hold == old(hold) - multiset{pp} && limbo == old(limbo)
      ensures pp < pages.Length && free == if old(pages[pp].ref) == 1 then [pp] + old(free) else old(free)
    {
      hide Inv;
      ghost var ps := pages[..];
      InvDrop(St(), ps, freeList, free, hold, limbo, pp);
      InvHead(St(), ps, freeList, free, hold, limbo);
      pages[pp] := pages[pp].(ref := (pages[pp].ref - 1) % MAXREF);
      hold := hold - multiset{pp};
      assert pages[..] == ps[pp := ps[pp].(ref := ps[pp].ref - 1)];
      if pages[pp].ref == 0 {
        limbo := limbo + {pp};
        PageFree(pp);
        assert limbo == old(limbo);
      }
    }

    /** pgdir_walk: the table frame that holds the entry for va, or NIL.  With create set, a missing
        table is allocated, zeroed, counted once and hung under the directory. */
    method PgdirWalk(d: nat, va: nat, create: bool) returns (pt: int)
      requires Valid() && WalkSlot(St(), d, Pdx(va))
      requires create && kind[d].KernDir? && !Present(frames[d][Pdx(va)]) ==> NoDirs(kind)
      modifies `freeList, `free, `hold, `limbo, `kind, pages, frames
      ensures hold == old(hold) && limbo == old(limbo)
      ensures pt == NIL || Present(old(frames[d][Pdx(va)])) ==>
                St() == old(St()) && free == old(free) && pages[..] == old(pages[..])
      ensures Present(old(frames[d][Pdx(va)])) ==> pt == frames[d][Pdx(va)].frame
      ensures !Present(old(frames[d][Pdx(va)])) ==> (pt == NIL <==> !create || old(free) == [])
      ensures pt != NIL && !Present(old(frames[d][Pdx(va)])) ==>
                && old(free) != [] && pt == old(free)[0] && free == old(free)[1..] && pt < frames.Length == |old(kind)|
                && old(kind)[pt] == Data && |old(St()).frames| == |old(St()).kind|
                && St() == Attach(old(St()).(frames := old(frames[..])[pt := ZEROPAGE]), d, Pdx(va), pt,
                   Word(pt, PTE_U_W_P))
      ensures Valid()
    {
      hide Inv, Typed, Shape, Attach;
      if Present(frames[d][Pdx(va)]) {
        return frames[d][Pdx(va)].frame;
      }
      if !create {
        return NIL;
      }
      pt := NewTable();
      if pt != NIL {
        HangTable(d, Pdx(va), pt);
      }
    }

    /** A cleared page with one count, in the kernel's hands. */
    method NewTable() returns (pp: int)
      requires Valid()
      modifies `freeList, `free, `hold, `limbo, pages, frames
      ensures Valid() && limbo == old(limbo)
      ensures old(free) == [] ==>
                pp == NIL && free == [] && hold == old(hold) && St() == old(St()) && pages[..] == old(pages[..])
      ensures old(free) != [] ==>
                && 0 <= pp < frames.Length == pages.Length == |kind| && pp == old(free)[0] && free == old(free)[1..]
                && kind[pp] == Data && St() == old(St()).(frames := old(frames[..])[pp := ZEROPAGE])
                && pp in managed && pp in hold && hold == old(hold) + multiset{pp} && pages[pp].ref == hold[pp]
    {
      hide Inv;
      InvHead(St(), pages[..], freeList, free, hold, limbo);
      pp := PageAlloc(true);
      if pp != NIL {
        InvHead(St(), pages[..], freeList, free, hold, limbo);
        TakeRef(pp);
      }
    }

    /** pgdir[pdx] = page2pa(pp) | PTE_W | PTE_U | PTE_P */
    method HangTable(d: nat, pdx: nat, pp: nat)
      requires Valid() && WalkSlot(St(), d, pdx) && !Present(frames[d][pdx])
      requires kind[d].KernDir? ==> NoDirs(kind)
      requires pp in managed && pp < frames.Length && frames[pp] == ZEROPAGE && pp in hold && pages[pp].ref == hold[pp]
      modifies `hold, `kind, frames
      ensures Valid() && hold == old(hold) - multiset{pp}
      ensures pp < |old(kind)| && old(kind[pp]) == Data && St() == Attach(old(St()), d, pdx, pp, Word(pp, PTE_U_W_P))
    {
      hide Inv;
      ghost var s := St();
      InvHead(s, pages[..], freeList, free, hold, limbo);
      InvFresh(s, pages[..], freeList, free, hold, limbo, pp);
      var w := Word(pp, PTE_U_W_P);
      InvAttach(s, pages[..], freeList, free, hold, limbo, d, pdx, pp, w);
      frames[d] := frames[d][pdx := w];
      kind := kind[pp := if d == kern then KernTable(pdx) else Table(d, pdx)];
      hold := hold - multiset{pp};
      assert St() == Attach(s, d, pdx, pp, w);
    }

    /** page_lookup walks with create set, so it can allocate an empty table even when it finds nothing. */
    method PageLookup(d: nat, va: nat) returns (pp: int, pt: int)
      requires Valid() && d < frames.Length && |kind| == frames.Length && kind[d].Dir? && va < UTOP_VPN
      modifies `freeList, `free, `hold, `limbo, `kind, pages, frames
      ensures hold == old(hold) && limbo == old(limbo) && |kind| == frames.Length
      ensures SameSpaces(old(St()), St()) && SameData(old(St()), St(), set f | f in old(free))
      ensures pp != NIL <==> va in old(User(d))
      ensures pp != NIL ==>
                && St() == old(St()) && free == old(free) && pages[..] == old(pages[..])
                && va in User(d) && pp == User(d)[va].frame
                && Present(frames[d][Pdx(va)]) && pt == frames[d][Pdx(va)].frame && 0 <= pt < frames.Length
                && frames[pt][Ptx(va)] == User(d)[va]
      ensures pt == NIL ==> old(free) == []
      ensures RefsKept(managed, old(pages[..]), old(free), pages[..])
      ensures free == old(free) || (old(free) != [] && free == old(free)[1..] && va !in old(User(d)))
      ensures Valid()
    {
      hide Inv, Typed, Shape, Space, SameSpaces, SameData;
      ghost var s := St();
      InvTyped(s, pages[..], freeList, free, hold, limbo);
      Translate(s, d, va);
      SameRefl(s, set f | f in free);
      pt := PgdirWalk(d, va, true);
      if pt != NIL && !Present(s.frames[d][Pdx(va)]) {
        WalkSpaces(s, d, Pdx(va), pt, Word(pt, PTE_U_W_P));
        SameMore(s, St(), {pt}, set f | f in old(free));
        forall p: nat | p in managed && p !in old(free) && p < pages.Length {
          InvRefAfterAttach(s, old(pages[..]), old(freeList), old(free), St(), pages[..], freeList, free, hold, limbo,
                            d, Pdx(va), pt, Word(pt, PTE_U_W_P), p);
        }
      }
      if pt == NIL || !Present(frames[pt][Ptx(va)]) {
        pp := NIL;
      } else {
        pp := frames[pt][Ptx(va)].frame;
      }
    }

    /** *pte = w, for an entry of a user page table. */
    method SetPte(d: nat, va: nat, pt: nat, w: Word)
      requires Valid() && d < frames.Length && |kind| == frames.Length && kind[d].Dir? && va < UTOP_VPN
      requires Present(frames[d][Pdx(va)]) && frames[d][Pdx(va)].frame == pt && pt < frames.Length
      requires Held(w) <= hold && (Present(w) ==> w.frame < |kind| && kind[w.frame] == Data)
      modifies `hold, frames
      ensures Valid() && St() == Store(old(St()), pt, Ptx(va), w)
      ensures hold == old(hold) + Held(old(frames[pt][Ptx(va)])) - Held(w)
      ensures User(d) == Put(old(User(d)), va, w)
      ensures OtherSpaces(old(St()), St(), d) && SameData(old(St()), St(), {})
    {
      hide Inv, Typed, Shape, Space, OtherSpaces, SameData;
      ghost var s := St();
      InvTyped(s, pages[..], freeList, free, hold, limbo);
      Translate(s, d, va);
      InvStore(s, pages[..], freeList, free, hold, limbo, pt, Ptx(va), w);
      StoreSpaces(s, d, va, w);
      hold := hold + Held(frames[pt][Ptx(va)]) - Held(w);
      frames[pt] := frames[pt][Ptx(va) := w];
      assert St() == Store(s, pt, Ptx(va), w);
    }

    /** page_remove: silently does nothing when va is not mapped. */
    method PageRemove(d: nat, va: nat)
      requires Valid() && d < frames.Length && |kind| == frames.Length && kind[d].Dir? && va < UTOP_VPN
      modifies `freeList, `free, `hold, `limbo, `kind, pages, frames
      ensures Valid() && hold == old(hold) && limbo == old(limbo) && |kind| == frames.Length
      ensures User(d) == old(User(d)) - {va}
      ensures OtherSpaces(old(St()), St(), d) && SameData(old(St()), St(), set f | f in old(free))
      ensures kind[d] == old(kind[d])
      ensures va in old(User(d)) ==>
                && Present(old(frames[d][Pdx(va)])) && old(frames[d][Pdx(va)]).frame < |old(St()).frames|
                && St() == Store(old(St()), old(frames[d][Pdx(va)]).frame, Ptx(va), NOTHING)
                && old(User(d))[va].frame < pages.Length
                && free == (if old(pages[User(d)[va].frame].ref) == 1 then [old(User(d))[va].frame] else []) + old(free)
      ensures va in old(User(d)) ==> Present(frames[d][Pdx(va)])
      ensures va !in old(User(d)) ==>
                free == old(free) || (old(free) != [] && free == old(free)[1..])
    {
      hide Inv, Typed, Shape, Space, OtherSpaces, SameData, SameSpaces;
      ghost var s := St();
      InvTyped(s, pages[..], freeList, free, hold, limbo);
      Translate(s, d, va);
      var pp, pt := PageLookup(d, va);
      SameToOther(s, St(), d);
      if pp == NIL {
        NoKey(User(d), va);
        return;
      }
      ClearPte(d, va, pt, pp);
    }

    /** *pte = 0; page_decref(pp) */
    method ClearPte(d: nat, va: nat, pt: nat, pp: nat)
      requires Valid() && d < frames.Length && |kind| == frames.Length && kind[d].Dir? && va < UTOP_VPN
      requires va in User(d) && pp == User(d)[va].frame
      requires pt < frames.Length && frames[pt][Ptx(va)] == User(d)[va] && Present(User(d)[va])
      requires Present(frames[d][Pdx(va)]) && pt == frames[d][Pdx(va)].frame && pt < frames.Length
      modifies `freeList, `free, `hold, `limbo, `kind, pages, frames
      ensures Valid() && hold == old(hold) && limbo == old(limbo) && kind == old(kind)
      ensures User(d) == old(User(d)) - {va}
      ensures OtherSpaces(old(St()), St(), d) && SameData(old(St()), St(), set f | f in old(free))
      ensures St() == Store(old(St()), pt, Ptx(va), NOTHING) && pp < pages.Length
      ensures free == (if old(pages[User(d)[va].frame].ref) == 1 then [pp] else []) + old(free)
    {
      hide Inv, Typed, Shape, Space, OtherSpaces, SameData, SameSpaces;
      ghost var s := St();
      InvTyped(s, pages[..], freeList, free, hold, limbo);
      SpaceFrames(s, d, va);
      InvHead(s, pages[..], freeList, free, hold, limbo);
      SetPte(d, va, pt, NOTHING);
      SameMore(s, St(), {}, set f | f in old(free));
      PageDecref(pp);
    }

    /** if (*pte & PTE_P) page_remove(pgdir, va), inside page_insert. */
    method DropOld(d: nat, va: nat, pt: nat)
      requires Valid() && d < frames.Length && |kind| == frames.Length && kind[d].Dir? && va < UTOP_VPN
      requires Present(frames[d][Pdx(va)]) && pt == frames[d][Pdx(va)].frame && pt < frames.Length
      modifies `freeList, `free, `hold, `limbo, `kind, pages, frames
      ensures Valid() && hold == old(hold) && limbo == old(limbo)
      ensures St() == old(St()) || St() == Store(old(St()), pt, Ptx(va), NOTHING)
      ensures !Present(frames[pt][Ptx(va)])
      ensures va !in old(User(d)) ==> free == old(free)
      ensures va in old(User(d)) && old(User(d))[va].frame in old(hold) ==> free == old(free)
      ensures |free| >= |old(free)|
    {
      hide Inv, Typed, Shape, Space, OtherSpaces, SameData, SameSpaces, Put;
      ghost var s := St();
      InvTyped(s, pages[..], freeList, free, hold, limbo);
      Translate(s, d, va);
      if Present(frames[pt][Ptx(va)]) {
        ghost var q := frames[pt][Ptx(va)].frame;
        SpaceFrames(s, d, va);
        if q in hold { HeldAndMapped(s, pages[..], freeList, free, hold, limbo, pt, Ptx(va)); }
        PageRemove(d, va);
      }
    }

    /** The part of page_insert after the walk: pp_ref++, page_remove of an old mapping, the store. */
    method InstallPte(d: nat, pp: nat, va: nat, w: Word)
      requires Valid() && d < frames.Length && |kind| == frames.Length && kind[d].Dir? && va < UTOP_VPN
      requires Present(frames[d][Pdx(va)]) && hold == multiset{}
      requires pp in managed && pp !in free && pp < pages.Length == frames.Length && kind[pp] == Data
      requires pages[pp].ref + 1 < MAXREF && Present(w) && w.frame == pp
      modifies `freeList, `free, `hold, `limbo, `kind, pages, frames
      ensures Valid() && hold == multiset{} && limbo == old(limbo) - {pp} && |kind| == frames.Length && pp !in free
      ensures old(frames[d][Pdx(va)]).frame < |old(St()).frames|
      ensures St() == Store(old(St()), old(frames[d][Pdx(va)]).frame, Ptx(va), w)
      ensures User(d) == old(User(d))[va := w]
      ensures OtherSpaces(old(St()), St(), d) && SameData(old(St()), St(), {})
      ensures va !in old(User(d)) || old(User(d))[va].frame == pp ==> free == old(free)
      ensures |free| >= |old(free)|
    {
      hide Inv, Typed, Shape, Space, OtherSpaces, SameData, SameSpaces, Store, Put;
      ghost var s := St();
      InvTyped(s, pages[..], freeList, free, hold, limbo);
      Translate(s, d, va);
      StoreSpaces(s, d, va, w);
      var pt := frames[d][Pdx(va)].frame;
      TakeRef(pp);
      DropOld(d, va, pt);
      StoreTwice(s, d, pt, Ptx(va), NOTHING, w);
      InvHead(St(), pages[..], freeList, free, hold, limbo);
      SetPte(d, va, pt, w);
      PutPresent(old(User(d)), va, w);
    }

    /** page_insert: the new reference is counted before the old mapping is removed, so that
        re-inserting a page where it already is neither changes its count nor frees it. */
    method PageInsert(d: nat, pp: nat, va: nat, perm: Flags) returns (r: int)
      requires Valid() && d < frames.Length && |kind| == frames.Length && kind[d].Dir? && va < UTOP_VPN
      requires pp in managed && pp !in free && pp < pages.Length == frames.Length && kind[pp] == Data
      requires pages[pp].ref + 1 < MAXREF && hold == multiset{}
      modifies `freeList, `free, `hold, `limbo, `kind, pages, frames
      ensures Valid() && hold == multiset{} && |kind| == frames.Length
      ensures r == if Present(old(frames[d][Pdx(va)])) || old(free) != [] then OK else -E_NO_MEM
      ensures r != OK ==> St() == old(St()) && free == old(free) && limbo == old(limbo) && pages[..] == old(pages[..])
      ensures r == OK ==>
                && limbo == old(limbo) - {pp} && pp !in free
                && User(d) == old(User(d))[va := Word(pp, perm.(p := true))]
                && OtherSpaces(old(St()), St(), d) && SameData(old(St()), St(), set f | f in old(free))
                && kind[d] == old(kind[d]) && kind[pp] == Data
      ensures r == OK && va in old(User(d)) && old(User(d))[va].frame == pp ==>
                free == old(free) && pages[pp].ref == old(pages[pp].ref)
      ensures r == OK && !(va in old(User(d)) && old(User(d))[va].frame == pp) ==>
                pages[pp].ref == old(pages[pp].ref) + 1
      ensures |free| + 1 >= |old(free)|
    {
      hide Inv, Typed, Shape, Space, OtherSpaces, SameData, SameSpaces;
      ghost var s, fr := St(), set f | f in free;
      var pt := WalkForInsert(d, pp, va);
      if pt == NIL {
        return -E_NO_MEM;
      }
      ghost var s1, ps1, h1, f1 := St(), pages[..], freeList, free;
      InstallPte(d, pp, va, Word(pp, perm.(p := true)));
      InsertRef(s1, ps1, h1, f1, St(), pages[..], freeList, free, hold, old(limbo), limbo, d, va,
          Word(pp, perm.(p := true)));
      OtherTrans(s, s1, St(), d);
      DataTrans(s, s1, St(), fr);
      r := OK;
    }

    /** The walk of page_insert, and why it disturbs nothing the caller can see. */
    method WalkForInsert(d: nat, ghost pp: nat, va: nat) returns (pt: int)
      requires Valid() && d < frames.Length && |kind| == frames.Length && kind[d].Dir? && va < UTOP_VPN
      requires pp in managed && pp !in free && pp < pages.Length == frames.Length && kind[pp] == Data
      modifies `freeList, `free, `hold, `limbo, `kind, pages, frames
      ensures Valid() && hold == old(hold) && limbo == old(limbo) && |kind| == frames.Length
      ensures pt == NIL <==> !Present(old(frames[d][Pdx(va)])) && old(free) == []
      ensures pt == NIL || Present(old(frames[d][Pdx(va)])) ==>
                St() == old(St()) && free == old(free) && pages[..] == old(pages[..])
      ensures pt != NIL && !Present(old(frames[d][Pdx(va)])) ==> free == old(free)[1..] && va !in old(User(d))
      ensures |free| + 1 >= |old(free)|
      ensures pt != NIL ==> Present(frames[d][Pdx(va)])
      ensures User(d) == old(User(d)) && kind[d] == old(kind[d]) && kind[pp] == Data && pp !in free
      ensures OtherSpaces(old(St()), St(), d) && SameData(old(St()), St(), set f | f in old(free))
      ensures pages[pp].ref == old(pages[pp].ref)
    {
      hide Inv, Typed, Shape, Space, OtherSpaces, SameData, SameSpaces;
      ghost var s, fr := St(), set f | f in free;
      InvTyped(s, pages[..], freeList, free, hold, limbo);
      InvHead(s, pages[..], freeList, free, hold, limbo);
      Translate(s, d, va);
      SameRefl(s, fr);
      pt := PgdirWalk(d, va, true);
      if pt != NIL && !Present(s.frames[d][Pdx(va)]) {
        WalkSpaces(s, d, Pdx(va), pt, Word(pt, PTE_U_W_P));
        SameMore(s, St(), {pt}, fr);
        InvRefAfterAttach(s, old(pages[..]), old(freeList), old(free), St(), pages[..], freeList, free, hold, limbo,
                          d, Pdx(va), pt, Word(pt, PTE_U_W_P), pp);
      }
      SameToOther(s, St(), d);
      SameDataAt(s, St(), fr, pp);
    }

    /** pp->pp_ref++ */
    method TakeRef(pp: nat)
      requires Valid() && pp in managed && pp !in free && pp < pages.Length && pages[pp].ref + 1 < MAXREF
      modifies `hold, `limbo, pages
      ensures Valid() && hold == old(hold) + multiset{pp} && limbo == old(limbo) - {pp}
      ensures pages[pp].ref == old(pages[pp].ref) + 1
    {
      hide Inv;
      ghost var ps := pages[..];
      InvHead(St(), ps, freeList, free, hold, limbo);
      InvTake(St(), ps, freeList, free, hold, limbo, pp);
      pages[pp] := pages[pp].(ref := (pages[pp].ref + 1) % MAXREF);
      assert pages[..] == ps[pp := ps[pp].(ref := ps[pp].ref + 1)];
      hold, limbo := hold + multiset{pp}, limbo - {pp};
    }
  }
}

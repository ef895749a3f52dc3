/**
  The counting invariant step by step: pp_ref, the free list and the references in memory agree
  after every single store the kernel makes, given what the kernel still holds in its hands.
*/
module PageCounts {
  import opened Mmu
  import opened PageRefs

  /** A managed page that nothing refers to is an ordinary page. */
  lemma UnreferencedIsData(s: Mem, p: nat)
    requires Typed(s) && p in s.managed
    ensures Refs(s, p) == {} ==> s.kind[p] == Data
  {
    match s.kind[p]
    case Data =>
    case Dir(e) => assert RefersTo(s, Root(e), p);
    case Table(d, i) => assert RefersTo(s, Entry(d, i), p);
    case KernTable(i) => assert RefersTo(s, Entry(s.kern, i), p);
    case KernDir =>
  }

  /** A page directory or page table has exactly one reference. */
  lemma StructureHasOneRef(s: Mem, p: nat)
    requires Typed(s) && p < |s.kind|
    ensures s.kind[p].Dir? ==> Refs(s, p) == {Root(s.kind[p].env)}
    ensures s.kind[p].Table? ==> Refs(s, p) == {Entry(s.kind[p].dir, s.kind[p].pdx)}
  {
    forall c | c in Refs(s, p) && (s.kind[p].Dir? || s.kind[p].Table?)
      ensures s.kind[p].Dir? ==> c == Root(s.kind[p].env)
      ensures s.kind[p].Table? ==> c == Entry(s.kind[p].dir, s.kind[p].pdx)
    {
      assert RefersTo(s, c, p);
    }
    if s.kind[p].Dir? {
      assert RefersTo(s, Root(s.kind[p].env), p);
    }
    if s.kind[p].Table? {
      assert RefersTo(s, Entry(s.kind[p].dir, s.kind[p].pdx), p);
    }
  }

  /** Contents of ordinary pages and of the kernel's page tables do not matter to the structure. */
  lemma ScrubRefs(s: Mem, f: nat, page: Page, p: nat)
    requires Shape(s) && f < |s.frames| && (s.kind[f] == Data || s.kind[f].KernTable?)
    ensures Refs(s.(frames := s.frames[f := page]), p) == Refs(s, p)
  {
    var s' := s.(frames := s.frames[f := page]);
    forall c ensures RefersTo(s', c, p) <==> RefersTo(s, c, p) {}
  }

  lemma ScrubTables(s: Mem, f: nat, page: Page)
    requires Shape(s) && TablesOk(s) && f < |s.frames| && (s.kind[f] == Data || s.kind[f].KernTable?)
    ensures TablesOk(s.(frames := s.frames[f := page]))
  {
  }

  lemma ScrubKern(s: Mem, f: nat, page: Page)
    requires Shape(s) && KernOk(s) && f < |s.frames| && (s.kind[f] == Data || s.kind[f].KernTable?)
    ensures KernOk(s.(frames := s.frames[f := page]))
  {
  }

  lemma ScrubTyped(s: Mem, f: nat, page: Page)
    requires Typed(s) && f < |s.frames| && (s.kind[f] == Data || s.kind[f].KernTable?)
    ensures Typed(s.(frames := s.frames[f := page]))
  {
    ScrubTables(s, f, page);
    ScrubKern(s, f, page);
  }

  lemma SameCounts(s: Mem, s': Mem)
    requires |s.kind| == |s.frames| && |s'.kind| == |s'.frames| && s'.managed == s.managed
    requires forall p :: Refs(s', p) == Refs(s, p)
    ensures RefCounts(s') == RefCounts(s)
  {
  }

  lemma InvScrub(s: Mem, pages: seq<PageInfo>, head: int, free: seq<nat>, hold: multiset<nat>, limbo: set<nat>, f: nat,
                 page: Page)
    requires Inv(s, pages, head, free, hold, limbo) && f < |s.frames| && (s.kind[f] == Data || s.kind[f].KernTable?)
    ensures Inv(s.(frames := s.frames[f := page]), pages, head, free, hold, limbo)
  {
    ScrubTyped(s, f, page);
    forall p { ScrubRefs(s, f, page, p); }
    SameCounts(s, s.(frames := s.frames[f := page]));
  }

  lemma ChainPop(pages: seq<PageInfo>, head: int, free: seq<nat>)
    requires Chain(pages, head, free) && free != []
    ensures Chain(pages[free[0] := pages[free[0]].(link := NIL)], pages[free[0]].link, free[1..])
  {
    var pages' := pages[free[0] := pages[free[0]].(link := NIL)];
    var rest := free[1..];
    forall k | 0 <= k < |rest|
      ensures rest[k] < |pages'| && pages'[rest[k]].link == Next(rest, k)
    {
      assert rest[k] == free[k+1] && free[0] != free[k+1];
    }
    assert pages[free[0]].link == Next(free, 0);
    assert rest != [] ==> rest[0] == free[1];
  }

  lemma ChainPush(pages: seq<PageInfo>, head: int, free: seq<nat>, q: nat)
    requires Chain(pages, head, free) && q < |pages| && q !in free
    ensures Chain(pages[q := pages[q].(link := head)], q, [q] + free)
  {
    var pages' := pages[q := pages[q].(link := head)];
    var free' := [q] + free;
    forall k: nat | k < |free'| ensures free'[k] < |pages'| && pages'[free'[k]].link == Next(free', k) {
      PushLink(pages, head, free, q, k);
    }
    PushDistinct(free, q);
  }

  lemma PushLink(pages: seq<PageInfo>, head: int, free: seq<nat>, q: nat, k: nat)
    requires Chain(pages, head, free) && q < |pages| && q !in free && k <= |free|
    ensures var more := [q] + free;
            more[k] < |pages| && pages[q := pages[q].(link := head)][more[k]].link == Next(more, k)
  {
    var more := [q] + free;
    PushNext(free, q, k);
    hide Next;
    if k > 0 {
      assert more[k] == free[k-1] && free[k-1] in free;
      assert pages[free[k-1]].link == Next(free, k - 1);
    }
  }

  lemma PushNext(free: seq<nat>, q: nat, k: nat)
    requires k <= |free|
    ensures Next([q] + free, k) == if k == 0 then (if free == [] then NIL else free[0]) else Next(free, k - 1)
  {
  }

  lemma PushDistinct(free: seq<nat>, q: nat)
    requires q !in free && forall k, l :: 0 <= k < l < |free| ==> free[k] != free[l]
    ensures var more := [q] + free; forall k, l :: 0 <= k < l < |more| ==> more[k] != more[l]
  {
    var more := [q] + free;
    forall k, l | 0 <= k < l < |more| ensures more[k] != more[l] {
      assert more[l] == free[l-1] && free[l-1] in free;
    }
  }

  lemma ChainSame(pages: seq<PageInfo>, pages': seq<PageInfo>, head: int, free: seq<nat>)
    requires Chain(pages, head, free) && |pages'| == |pages|
    requires forall p :: 0 <= p < |pages| ==> pages'[p].link == pages[p].link
    ensures Chain(pages', head, free)
  {
  }

  lemma CountedHead(count: map<nat, nat>, kind: seq<Kind>, pages: seq<PageInfo>, free: seq<nat>, hold: multiset<nat>,
                    limbo: set<nat>)
    requires Counted(count, kind, pages, free, hold, limbo)
    ensures forall p :: p in free || p in limbo || p in hold ==> p in count
    ensures forall p :: p in free || p in limbo ==> p < |kind| == |pages| && kind[p] == Data && pages[p].ref == 0
    ensures forall p :: p in limbo ==> pages[p].link == NIL && p !in free && hold[p] == 0
    ensures forall p :: p in count ==> p < |pages| && pages[p].ref < MAXREF
    ensures forall p :: p in hold ==> p !in free
  {
  }

  lemma InvHead(s: Mem, pages: seq<PageInfo>, head: int, free: seq<nat>, hold: multiset<nat>, limbo: set<nat>)
    requires Inv(s, pages, head, free, hold, limbo)
    ensures |pages| == |s.kind| == |s.frames|
    ensures head == if free == [] then NIL else free[0]
    ensures forall p :: p in free || p in limbo || p in hold ==> p in s.managed
    ensures forall p :: p in s.managed ==> 0 < p < |pages|
    ensures forall p :: p in free || p in limbo ==> s.kind[p] == Data && pages[p].ref == 0
    ensures forall p :: p in limbo ==> pages[p].link == NIL && p !in free && hold[p] == 0
    ensures forall p :: p in s.managed ==> pages[p].ref < MAXREF
    ensures forall p :: p in hold ==> p !in free
  {
    InvIsCounted(s, pages, head, free, hold, limbo);
    hide Inv, Counted, Refs;
    CountedHead(RefCounts(s), s.kind, pages, free, hold, limbo);
  }

  lemma InvIsCounted(s: Mem, pages: seq<PageInfo>, head: int, free: seq<nat>, hold: multiset<nat>, limbo: set<nat>)
    requires Inv(s, pages, head, free, hold, limbo)
    ensures |pages| == |s.kind| == |s.frames| && Counted(RefCounts(s), s.kind, pages, free, hold, limbo)
    ensures head == if free == [] then NIL else free[0]
    ensures forall p :: p in s.managed ==> 0 < p < |pages|
  {
    hide RootsOk, TablesOk, KernOk, LeavesOk, Refs, RefCounts;
  }

  /** What pp_ref counts: the references in memory and those the kernel still holds. */
  lemma RefIs(s: Mem, pages: seq<PageInfo>, head: int, free: seq<nat>, hold: multiset<nat>, limbo: set<nat>, p: nat)
    requires Inv(s, pages, head, free, hold, limbo) && p in s.managed
    ensures |s.kind| == |s.frames| && p < |pages| && pages[p].ref == |Refs(s, p)| + hold[p]
    ensures p in free ==> pages[p].ref == 0
  {
    hide Typed, Refs, Chain;
    InvIsCounted(s, pages, head, free, hold, limbo);
    assert RefCounts(s)[p] == |Refs(s, p)|;
  }

  lemma InvTyped(s: Mem, pages: seq<PageInfo>, head: int, free: seq<nat>, hold: multiset<nat>, limbo: set<nat>)
    requires Inv(s, pages, head, free, hold, limbo)
    ensures Typed(s) && Shape(s)
    ensures forall f :: f in free ==> f < |s.kind| && s.kind[f] == Data
  {
  }

  /** page_alloc takes the head of the list. */
  lemma CountedAlloc(count: map<nat, nat>, kind: seq<Kind>, pages: seq<PageInfo>, free: seq<nat>, hold: multiset<nat>,
                     limbo: set<nat>)
    requires Counted(count, kind, pages, free, hold, limbo) && free != []
    requires forall k, l :: 0 <= k < l < |free| ==> free[k] != free[l]
    ensures free[0] < |pages|
    ensures Counted(count, kind, pages[free[0] := pages[free[0]].(link := NIL)], free[1..], hold, limbo + {free[0]})
  {
    var q := free[0];
    assert forall p :: p in free <==> p == q || p in free[1..];
    assert q !in free[1..];
  }

  lemma InvAlloc(s: Mem, pages: seq<PageInfo>, head: int, free: seq<nat>, hold: multiset<nat>, limbo: set<nat>)
    requires Inv(s, pages, head, free, hold, limbo) && free != []
    ensures free[0] < |pages|
    ensures Inv(s, pages[free[0] := pages[free[0]].(link := NIL)], pages[free[0]].link, free[1..], hold,
            limbo + {free[0]})
  {
    CountedAlloc(RefCounts(s), s.kind, pages, free, hold, limbo);
    ChainPop(pages, head, free);
  }

  /** page_free puts a page in front of the list. */
  lemma CountedFree(count: map<nat, nat>, kind: seq<Kind>, pages: seq<PageInfo>, free: seq<nat>, hold: multiset<nat>,
                    limbo: set<nat>,
                    q: nat, head: int)
    requires Counted(count, kind, pages, free, hold, limbo) && q in limbo
    ensures Counted(count, kind, pages[q := pages[q].(link := head)], [q] + free, hold, limbo - {q})
  {
    assert forall p :: p in [q] + free <==> p == q || p in free;
  }

  lemma InvFree(s: Mem, pages: seq<PageInfo>, head: int, free: seq<nat>, hold: multiset<nat>, limbo: set<nat>, q: nat)
    requires Inv(s, pages, head, free, hold, limbo) && q in limbo
    ensures q < |pages|
    ensures Inv(s, pages[q := pages[q].(link := head)], q, [q] + free, hold, limbo - {q})
  {
    CountedFree(RefCounts(s), s.kind, pages, free, hold, limbo, q, head);
    ChainPush(pages, head, free, q);
  }

  /** pp_ref++ */
  lemma CountedTake(count: map<nat, nat>, kind: seq<Kind>, pages: seq<PageInfo>, free: seq<nat>, hold: multiset<nat>,
                    limbo: set<nat>, q: nat)
    requires Counted(count, kind, pages, free, hold, limbo) && q in count && q !in free && pages[q].ref + 1 < MAXREF
    ensures Counted(count, kind, pages[q := pages[q].(ref := pages[q].ref + 1)], free, hold + multiset{q}, limbo - {q})
  {
  }

  lemma InvTake(s: Mem, pages: seq<PageInfo>, head: int, free: seq<nat>, hold: multiset<nat>, limbo: set<nat>, q: nat)
    requires Inv(s, pages, head, free, hold, limbo)
    requires q in s.managed && q !in free && q < |pages| && pages[q].ref + 1 < MAXREF
    ensures Inv(s, pages[q := pages[q].(ref := pages[q].ref + 1)], head, free, hold + multiset{q}, limbo - {q})
  {
    CountedTake(RefCounts(s), s.kind, pages, free, hold, limbo, q);
    ChainSame(pages, pages[q := pages[q].(ref := pages[q].ref + 1)], head, free);
  }

  /** --pp_ref; a page that reaches zero is about to be freed. */
  lemma CountedDrop(count: map<nat, nat>, kind: seq<Kind>, pages: seq<PageInfo>, free: seq<nat>, hold: multiset<nat>,
                    limbo: set<nat>, q: nat)
    requires Counted(count, kind, pages, free, hold, limbo) && q in hold
    requires q in count && count[q] == 0 ==> kind[q] == Data
    ensures pages[q].ref > 0 && q !in free
    ensures Counted(count, kind, pages[q := pages[q].(ref := pages[q].ref - 1)], free, hold - multiset{q},
                    if pages[q].ref == 1 then limbo + {q} else limbo)
  {
    assert hold[q] >= 1;
  }

  /** A page whose only count is the kernel's own hold is referenced nowhere in memory. */
  lemma InvFresh(s: Mem, pages: seq<PageInfo>, head: int, free: seq<nat>, hold: multiset<nat>, limbo: set<nat>, q: nat)
    requires Inv(s, pages, head, free, hold, limbo) && q in s.managed && q < |pages|
    requires pages[q].ref == hold[q]
    ensures Fresh(s, q)
  {
    assert RefCounts(s)[q] == 0;
    UnreferencedIsData(s, q);
  }

  lemma InvDrop(s: Mem, pages: seq<PageInfo>, head: int, free: seq<nat>, hold: multiset<nat>, limbo: set<nat>, q: nat)
    requires Inv(s, pages, head, free, hold, limbo) && q in hold
    ensures q < |pages| && pages[q].ref > 0 && q !in free
    ensures Inv(s, pages[q := pages[q].(ref := pages[q].ref - 1)], head, free, hold - multiset{q},
                if pages[q].ref == 1 then limbo + {q} else limbo)
  {
    if |Refs(s, q)| == 0 {
      UnreferencedIsData(s, q);
    }
    CountedDrop(RefCounts(s), s.kind, pages, free, hold, limbo, q);
    ChainSame(pages, pages[q := pages[q].(ref := pages[q].ref - 1)], head, free);
  }

  function Held(w: Word): multiset<nat> { if Present(w) then multiset{w.frame} else multiset{} }

  lemma CountedMove(count: map<nat, nat>, kind: seq<Kind>, pages: seq<PageInfo>, free: seq<nat>, hold: multiset<nat>,
                    limbo: set<nat>,
                    count': map<nat, nat>, kind': seq<Kind>, hold': multiset<nat>)
    requires Counted(count, kind, pages, free, hold, limbo)
    requires count'.Keys == count.Keys && |kind'| == |kind|
    requires forall p :: p in count ==> count'[p] + hold'[p] == count[p] + hold[p]
    requires forall p :: p in hold' ==> p in count
    requires forall p :: p in count && (p in free || p in limbo) ==> kind'[p] == Data
    ensures Counted(count', kind', pages, free, hold', limbo)
  {
  }

  lemma CardSwap<T>(r: set<T>, c: T, had: bool, has: bool)
    requires had <==> c in r
    ensures |r - {c} + (if has then {c} else {})| + (if had then 1 else 0) == |r| + (if has then 1 else 0)
  {
  }

  lemma EntryRefers(s: Mem, t: nat, j: nat, p: nat)
    requires |s.kind| == |s.frames| && t < |s.frames| && j < NENTRIES && s.kind[t].Table?
    ensures Entry(t, j) in Refs(s, p) <==> Present(s.frames[t][j]) && s.frames[t][j].frame == p
  {
  }

  lemma StoreCount(s: Mem, t: nat, j: nat, w: Word, p: nat)
    requires Shape(s) && t < |s.frames| && j < NENTRIES && s.kind[t].Table?
    ensures |Refs(Store(s, t, j, w), p)| + Held(s.frames[t][j])[p] == |Refs(s, p)| + Held(w)[p]
  {
    hide Refs, RefersTo, Store;
    StoreEntryRefs(s, t, j, w, p);
    EntryRefers(s, t, j, p);
    var o := s.frames[t][j];
    CardSwap(Refs(s, p), Entry(t, j), Present(o) && o.frame == p, Present(w) && w.frame == p);
  }

  /** A store into a page table returns the old reference to the kernel's hands and uses up the new one. */
  lemma InvStore(s: Mem, pages: seq<PageInfo>, head: int, free: seq<nat>, hold: multiset<nat>, limbo: set<nat>,
                 t: nat, j: nat, w: Word)
    requires Inv(s, pages, head, free, hold, limbo)
    requires t < |s.frames| && j < NENTRIES && s.kind[t].Table?
    requires Held(w) <= hold && (Present(w) ==> w.frame < |s.kind| && s.kind[w.frame] == Data)
    ensures Inv(Store(s, t, j, w), pages, head, free, hold + Held(s.frames[t][j]) - Held(w), limbo)
  {
    assert Present(w) ==> w.frame in hold;
    StoreEntryTyped(s, t, j, w);
    var s' := Store(s, t, j, w);
    var hold' := hold + Held(s.frames[t][j]) - Held(w);
    assert Present(s.frames[t][j]) ==> s.frames[t][j].frame in s.managed;
    forall p | p in s.managed
      ensures RefCounts(s')[p] + hold'[p] == RefCounts(s)[p] + hold[p]
    {
      StoreCount(s, t, j, w, p);
    }
    CountedMove(RefCounts(s), s.kind, pages, free, hold, limbo, RefCounts(s'), s'.kind, hold');
  }

  lemma AttachCount(s: Mem, d: nat, i: nat, t: nat, w: Word, p: nat)
    requires Shape(s) && WalkSlot(s, d, i) && !Present(s.frames[d][i])
    requires Fresh(s, t) && s.frames[t] == ZEROPAGE && Present(w) && w.frame == t
    ensures |Refs(Attach(s, d, i, t, w), p)| == |Refs(s, p)| + multiset{t}[p]
  {
    AttachRefs(s, d, i, t, w, p);
    assert !RefersTo(s, Entry(d, i), p);
  }

  lemma CountedAttach(s: Mem, pages: seq<PageInfo>, free: seq<nat>, hold: multiset<nat>, limbo: set<nat>,
                      d: nat, i: nat, t: nat, w: Word)
    requires Shape(s) && Counted(RefCounts(s), s.kind, pages, free, hold, limbo)
    requires WalkSlot(s, d, i) && !Present(s.frames[d][i])
    requires Fresh(s, t) && s.frames[t] == ZEROPAGE && Present(w) && w.frame == t && t in hold
    ensures Counted(RefCounts(Attach(s, d, i, t, w)), Attach(s, d, i, t, w).kind, pages, free, hold - multiset{t},
            limbo)
  {
    var s' := Attach(s, d, i, t, w);
    var hold' := hold - multiset{t};
    forall p | p in s.managed
      ensures RefCounts(s')[p] + hold'[p] == RefCounts(s)[p] + hold[p]
    {
      AttachCount(s, d, i, t, w, p);
    }
    InHoldNotFree(RefCounts(s), s.kind, pages, free, hold, limbo, t);
    CountedMove(RefCounts(s), s.kind, pages, free, hold, limbo, RefCounts(s'), s'.kind, hold');
  }

  lemma InvAttach(s: Mem, pages: seq<PageInfo>, head: int, free: seq<nat>, hold: multiset<nat>, limbo: set<nat>,
                  d: nat, i: nat, t: nat, w: Word)
    requires Inv(s, pages, head, free, hold, limbo)
    requires WalkSlot(s, d, i) && !Present(s.frames[d][i])
    requires s.kind[d].KernDir? ==> forall x :: 0 <= x < |s.kind| ==> !s.kind[x].Dir?
    requires Fresh(s, t) && s.frames[t] == ZEROPAGE && Present(w) && w.frame == t && t in hold
    ensures Inv(Attach(s, d, i, t, w), pages, head, free, hold - multiset{t}, limbo)
  {
    AttachTyped(s, d, i, t, w);
    CountedAttach(s, pages, free, hold, limbo, d, i, t, w);
  }

  lemma InHoldNotFree(count: map<nat, nat>, kind: seq<Kind>, pages: seq<PageInfo>, free: seq<nat>, hold: multiset<nat>,
                      limbo: set<nat>, t: nat)
    requires Counted(count, kind, pages, free, hold, limbo) && t in hold
    ensures t !in free && t !in limbo
  {
    assert hold[t] >= 1;
  }

  lemma DetachCount(s: Mem, d: nat, i: nat, p: nat)
    requires Typed(s) && d < |s.frames| && i < PDX_UTOP && s.kind[d].Dir? && Present(s.frames[d][i])
    requires EmptyTable(s.frames[s.frames[d][i].frame])
    ensures |Refs(Detach(s, d, i), p)| + multiset{s.frames[d][i].frame}[p] == |Refs(s, p)|
  {
    DetachRefs(s, d, i, p);
    assert RefersTo(s, Entry(d, i), p) <==> p == s.frames[d][i].frame;
  }

  lemma InvDetach(s: Mem, pages: seq<PageInfo>, head: int, free: seq<nat>, hold: multiset<nat>, limbo: set<nat>, d: nat,
                  i: nat)
    requires Inv(s, pages, head, free, hold, limbo)
    requires d < |s.frames| && i < PDX_UTOP && s.kind[d].Dir? && Present(s.frames[d][i])
    requires EmptyTable(s.frames[s.frames[d][i].frame])
    ensures Inv(Detach(s, d, i), pages, head, free, hold + multiset{s.frames[d][i].frame}, limbo)
  {
    DetachTyped(s, d, i);
    var t := s.frames[d][i].frame;
    var s' := Detach(s, d, i);
    var hold' := hold + multiset{t};
    forall p | p in s.managed
      ensures RefCounts(s')[p] + hold'[p] == RefCounts(s)[p] + hold[p]
    {
      DetachCount(s, d, i, p);
    }
    CountedMove(RefCounts(s), s.kind, pages, free, hold, limbo, RefCounts(s'), s'.kind, hold');
  }

  lemma InvSetRoot(s: Mem, pages: seq<PageInfo>, head: int, free: seq<nat>, hold: multiset<nat>, limbo: set<nat>,
                   e: nat, d: nat)
    requires Inv(s, pages, head, free, hold, limbo)
    requires e < |s.roots| && s.roots[e] == 0 && Fresh(s, d) && EmptyUser(s.frames[d]) && d in hold
    requires forall i :: KernIdx(i) ==> s.frames[d][i] == s.frames[s.kern][i]
    requires s.frames[d][PDX_UVPT] == Word(d, PTE_U_P)
    ensures Inv(SetRoot(s, e, d), pages, head, free, hold - multiset{d}, limbo)
  {
    SetRootTyped(s, e, d);
    var s' := SetRoot(s, e, d);
    var hold' := hold - multiset{d};
    forall p | p in s.managed
      ensures RefCounts(s')[p] + hold'[p] == RefCounts(s)[p] + hold[p]
    {
      SetRootRefs(s, e, d, p);
      assert !RefersTo(s, Root(e), p);
    }
    InHoldNotFree(RefCounts(s), s.kind, pages, free, hold, limbo, d);
    CountedMove(RefCounts(s), s.kind, pages, free, hold, limbo, RefCounts(s'), s'.kind, hold');
  }

  lemma InvClearRoot(s: Mem, pages: seq<PageInfo>, head: int, free: seq<nat>, hold: multiset<nat>, limbo: set<nat>,
                     e: nat)
    requires Inv(s, pages, head, free, hold, limbo)
    requires e < |s.roots| && s.roots[e] != 0 && EmptyUser(s.frames[s.roots[e]])
    ensures Inv(ClearRoot(s, e), pages, head, free, hold + multiset{s.roots[e]}, limbo)
  {
    ClearRootTyped(s, e);
    var d := s.roots[e];
    var s' := ClearRoot(s, e);
    var hold' := hold + multiset{d};
    forall p | p in s.managed
      ensures RefCounts(s')[p] + hold'[p] == RefCounts(s)[p] + hold[p]
    {
      ClearRootRefs(s, e, p);
      assert RefersTo(s, Root(e), p) <==> p == d;
    }
    CountedMove(RefCounts(s), s.kind, pages, free, hold, limbo, RefCounts(s'), s'.kind, hold');
  }

  /** What a store does to one reference count, read off the invariant on both sides of it. */
  lemma InvRefAfterStore(s: Mem, pages: seq<PageInfo>, head: int, free: seq<nat>,
                         s': Mem, pages': seq<PageInfo>, head': int, free': seq<nat>,
                         hold: multiset<nat>, limbo: set<nat>, limbo': set<nat>, t: nat, j: nat, w: Word, p: nat)
    requires Inv(s, pages, head, free, hold, limbo) && Inv(s', pages', head', free', hold, limbo')
    requires t < |s.frames| && j < NENTRIES && |s.kind| == |s.frames| && s.kind[t].Table? && s' == Store(s, t, j, w)
    requires p in s.managed && p < |pages| && p < |pages'|
    ensures pages'[p].ref + Held(s.frames[t][j])[p] == pages[p].ref + Held(w)[p]
  {
    hide Inv, Refs;
    InvTyped(s, pages, head, free, hold, limbo);
    StoreCount(s, t, j, w, p);
    RefIs(s, pages, head, free, hold, limbo, p);
    RefIs(s', pages', head', free', hold, limbo', p);
  }

  lemma InvRefAfterAttach(s: Mem, pages: seq<PageInfo>, head: int, free: seq<nat>,
                          s': Mem, pages': seq<PageInfo>, head': int, free': seq<nat>,
                          hold: multiset<nat>, limbo: set<nat>, d: nat, i: nat, t: nat, w: Word, p: nat)
    requires Inv(s, pages, head, free, hold, limbo) && Inv(s', pages', head', free', hold, limbo)
    requires |s.kind| == |s.frames| && WalkSlot(s, d, i) && !Present(s.frames[d][i])
    requires t in free && t < |s.frames| && Present(w) && w.frame == t
    requires s' == Attach(s.(frames := s.frames[t := ZEROPAGE]), d, i, t, w)
    requires p in s.managed && p != t && p < |pages| && p < |pages'|
    ensures pages'[p].ref == pages[p].ref
  {
    hide Inv, Refs, RootsOk, TablesOk, KernOk, LeavesOk, Counted, Attach;
    var s1 := s.(frames := s.frames[t := ZEROPAGE]);
    InvTyped(s, pages, head, free, hold, limbo);
    InvHead(s, pages, head, free, hold, limbo);
    RefIs(s, pages, head, free, hold, limbo, t);
    RefIs(s, pages, head, free, hold, limbo, p);
    ScrubTyped(s, t, ZEROPAGE);
    ScrubRefs(s, t, ZEROPAGE, p);
    ScrubRefs(s, t, ZEROPAGE, t);
    AttachCount(s1, d, i, t, w, p);
    AttachManaged(s1, d, i, t, w);
    RefIs(s', pages', head', free', hold, limbo, p);
  }

  lemma AttachManaged(s: Mem, d: nat, i: nat, t: nat, w: Word)
    requires d < |s.frames| && i < NENTRIES && t < |s.kind|
    ensures Attach(s, d, i, t, w).managed == s.managed
  {
  }

  /** A page both held once and mapped somewhere has at least two counts. */
  lemma HeldAndMapped(s: Mem, pages: seq<PageInfo>, head: int, free: seq<nat>, hold: multiset<nat>, limbo: set<nat>,
                      t: nat, j: nat)
    requires Inv(s, pages, head, free, hold, limbo)
    requires t < |s.frames| && j < NENTRIES && |s.kind| == |s.frames| && s.kind[t].Table? && Present(s.frames[t][j])
    requires s.frames[t][j].frame in hold
    ensures s.frames[t][j].frame < |pages| && pages[s.frames[t][j].frame].ref >= 2
  {
    var q := s.frames[t][j].frame;
    assert RefersTo(s, Entry(t, j), q);
    assert Entry(t, j) in Refs(s, q) && RefCounts(s)[q] == |Refs(s, q)|;
    assert hold[q] >= 1;
  }

  /** The pages page_init hands to the allocator: all but page 0, the MP entry page and [npages_basemem, pgnum). */
  predicate Handed(i: nat, basemem: nat, pgnum: nat) {
    i != 0 && !(basemem <= i < pgnum) && i != MPENTRY_PGNUM
  }

  ghost function HandedPages(n: nat, basemem: nat, pgnum: nat): set<nat> {
    set i: nat | i < n && Handed(i, basemem, pgnum)
  }

  function BootKind(n: nat, kern: nat): seq<Kind> { seq(n, f => if f == kern then KernDir else Data) }

  const MPENTRY_PGNUM := 7          // PGNUM(MPENTRY_PADDR)

  ghost predicate BootState(s: Mem) {
    && Shape(s)
    && (forall f :: 0 <= f < |s.kind| && f != s.kern ==> s.kind[f] == Data)
    && (forall e :: 0 <= e < |s.roots| ==> s.roots[e] == 0)
    && (forall i :: KernIdx(i) ==> !Present(s.frames[s.kern][i]))
  }

  lemma BootRefs(s: Mem, p: nat)
    requires BootState(s)
    ensures Refs(s, p) == {}
  {
    forall c ensures !RefersTo(s, c, p) {}
  }

  lemma BootInv(s: Mem, pages: seq<PageInfo>, head: int, free: seq<nat>)
    requires BootState(s) && |pages| == |s.frames| && Chain(pages, head, free)
    requires forall p :: p in free <==> p in s.managed
    requires forall p :: 0 <= p < |pages| ==> pages[p].ref == 0 && (p !in free ==> pages[p].link == NIL)
    ensures Inv(s, pages, head, free, multiset{}, {})
  {
    hide Refs, Typed, Counted, Chain;
    forall p { BootRefs(s, p); }
    BootTyped(s);
    BootCounted(RefCounts(s), s.kind, pages, free);
  }

  lemma BootCounted(count: map<nat, nat>, kind: seq<Kind>, pages: seq<PageInfo>, free: seq<nat>)
    requires |pages| == |kind| && (forall p :: p in free <==> p in count)
    requires forall p :: p in count ==> p < |kind| && count[p] == 0 && kind[p] == Data
    requires forall p :: 0 <= p < |pages| ==> pages[p].ref == 0 && (p !in free ==> pages[p].link == NIL)
    ensures Counted(count, kind, pages, free, multiset{}, {})
  {
  }

  lemma BootTyped(s: Mem)
    requires BootState(s)
    ensures Typed(s)
  {
  }
}

/** What a page directory means: a finite map from user page numbers to page-table words. */
module Spaces {
  import opened Mmu
  import opened PageRefs

  /** The word that translates page number v under directory d; not present if there is no table. */
  function Leaf(frames: seq<Page>, d: nat, v: nat): Word
    requires d < |frames|
  {
    var pde := frames[d][Pdx(v)];
    if Present(pde) && pde.frame < |frames| then frames[pde.frame][Ptx(v)] else NOTHING
  }

  /** The two-level table under directory d, read as one map. */
  ghost function Space(frames: seq<Page>, d: nat): (m: map<nat, Word>)
    requires d < |frames|
  {
    map v | 0 <= v < UTOP_VPN && Present(Leaf(frames, d, v)) :: Leaf(frames, d, v)
  }

  /** Every directory other than d means what it meant before. */
  ghost predicate OtherSpaces(s: Mem, s': Mem, d: nat) {
    && |s.kind| == |s.frames| == |s'.frames| == |s'.kind|
    && forall x :: 0 <= x < |s.frames| && x != d && s.kind[x].Dir? ==>
         s'.kind[x] == s.kind[x] && Space(s'.frames, x) == Space(s.frames, x)
  }

  lemma SameLeaves(frames: seq<Page>, frames': seq<Page>, d: nat)
    requires d < |frames| && d < |frames'|
    requires forall v :: 0 <= v < UTOP_VPN ==> Leaf(frames', d, v) == Leaf(frames, d, v)
    ensures Space(frames', d) == Space(frames, d)
  {
  }

  /** Changing a frame that is neither the directory nor one of its tables. */
  lemma ScrubSpace(frames: seq<Page>, f: nat, page: Page, d: nat)
    requires f < |frames| && d < |frames| && d != f
    requires forall i :: 0 <= i < PDX_UTOP && Present(frames[d][i]) ==> frames[d][i].frame != f
    ensures Space(frames[f := page], d) == Space(frames, d)
  {
    forall v | 0 <= v < UTOP_VPN
      ensures Leaf(frames[f := page], d, v) == Leaf(frames, d, v)
    {
      SplitVpn(v);
    }
    SameLeaves(frames, frames[f := page], d);
  }

  /** Hanging an empty table under an empty directory entry. */
  lemma AttachSpace(frames: seq<Page>, d: nat, i: nat, w: Word)
    requires d < |frames| && i < NENTRIES && !Present(frames[d][i])
    requires forall k :: 0 <= k < PDX_UTOP && Present(frames[d][k]) ==> frames[d][k].frame != d
    requires w.frame < |frames| && w.frame != d && frames[w.frame] == ZEROPAGE
    ensures Space(frames[d := frames[d][i := w]], d) == Space(frames, d)
  {
    var frames' := frames[d := frames[d][i := w]];
    forall v | 0 <= v < UTOP_VPN
      ensures Leaf(frames', d, v) == Leaf(frames, d, v)
    {
      SplitVpn(v);
      assert Pdx(v) != i ==> frames'[d][Pdx(v)] == frames[d][Pdx(v)];
    }
    SameLeaves(frames, frames', d);
  }

  function Put(m: map<nat, Word>, v: nat, w: Word): map<nat, Word> {
    if Present(w) then m[v := w] else m - {v}
  }

  /** A store into a page table changes one key of the map. */
  lemma StoreSpace(frames: seq<Page>, d: nat, v: nat, t: nat, w: Word)
    requires d < |frames| && v < UTOP_VPN && t < |frames| && t != d
    requires Present(frames[d][Pdx(v)]) && frames[d][Pdx(v)].frame == t
    requires forall k :: 0 <= k < PDX_UTOP && k != Pdx(v) && Present(frames[d][k]) ==> frames[d][k].frame != t
    ensures Space(frames[t := frames[t][Ptx(v) := w]], d) == Put(Space(frames, d), v, w)
  {
    hide Leaf;
    var frames' := frames[t := frames[t][Ptx(v) := w]];
    forall u | 0 <= u < UTOP_VPN
      ensures Leaf(frames', d, u) == if u == v then w else Leaf(frames, d, u)
    {
      StoreLeaf(frames, d, v, t, w, u);
    }
  }

  lemma StoreLeaf(frames: seq<Page>, d: nat, v: nat, t: nat, w: Word, u: nat)
    requires d < |frames| && v < UTOP_VPN && t < |frames| && t != d && u < UTOP_VPN
    requires Present(frames[d][Pdx(v)]) && frames[d][Pdx(v)].frame == t
    requires forall k :: 0 <= k < PDX_UTOP && k != Pdx(v) && Present(frames[d][k]) ==> frames[d][k].frame != t
    ensures Leaf(frames[t := frames[t][Ptx(v) := w]], d, u) == if u == v then w else Leaf(frames, d, u)
  {
    SplitVpn(u);
    SplitVpn(v);
  }

  // ---------------------------------------------------------------- the same, in a well-typed memory

  lemma TypedScrub(s: Mem, f: nat, page: Page, x: nat)
    requires Shape(s) && TablesOk(s) && f < |s.frames| && s.kind[f] == Data && x < |s.frames| && s.kind[x].Dir?
    ensures Space(s.frames[f := page], x) == Space(s.frames, x)
  {
    ScrubSpace(s.frames, f, page, x);
  }

  lemma TypedAttach(s: Mem, d: nat, i: nat, t: nat, w: Word, x: nat)
    requires Shape(s) && TablesOk(s) && WalkSlot(s, d, i) && !Present(s.frames[d][i])
    requires t < |s.frames| && s.kind[t] == Data && s.frames[t] == ZEROPAGE && w.frame == t
    requires x < |s.frames| && s.kind[x].Dir?
    ensures Space(Attach(s, d, i, t, w).frames, x) == Space(s.frames, x)
  {
    if x == d {
      AttachSpace(s.frames, d, i, w);
    } else {
      ScrubSpace(s.frames, d, s.frames[d][i := w], x);
    }
  }

  lemma TypedStore(s: Mem, d: nat, v: nat, w: Word, x: nat)
    requires Shape(s) && TablesOk(s) && d < |s.frames| && s.kind[d].Dir? && v < UTOP_VPN && Present(s.frames[d][Pdx(v)])
    requires x < |s.frames| && s.kind[x].Dir?
    ensures Pdx(v) < PDX_UTOP && s.frames[d][Pdx(v)].frame < |s.frames|
    ensures Space(Store(s, s.frames[d][Pdx(v)].frame, Ptx(v), w).frames, x) ==
              if x == d then Put(Space(s.frames, d), v, w) else Space(s.frames, x)
  {
    SplitVpn(v);
    var t := s.frames[d][Pdx(v)].frame;
    if x == d {
      StoreSpace(s.frames, d, v, t, w);
    } else {
      ScrubSpace(s.frames, t, s.frames[t][Ptx(v) := w], x);
    }
  }

  /** Every key of a user map names an ordinary allocator page. */
  lemma SpaceFrames(s: Mem, d: nat, v: nat)
    requires Typed(s) && d < |s.frames| && s.kind[d].Dir? && v in Space(s.frames, d)
    ensures Space(s.frames, d)[v].frame in s.managed && s.kind[Space(s.frames, d)[v].frame] == Data
  {
    SplitVpn(v);
    assert Present(Leaf(s.frames, d, v));
    assert s.kind[s.frames[d][Pdx(v)].frame].Table?;
  }

  /** Every user directory still means what it meant. */
  ghost predicate SameSpaces(s: Mem, s': Mem) {
    && |s.kind| == |s.frames| == |s'.frames| == |s'.kind|
    && forall x :: 0 <= x < |s.frames| && s.kind[x].Dir? ==>
         s'.kind[x] == s.kind[x] && Space(s'.frames, x) == Space(s.frames, x)
  }

  /** Managed pages outside `free` keep their reference counts. */
  ghost predicate RefsKept(managed: set<nat>, pages: seq<PageInfo>, free: seq<nat>, pages': seq<PageInfo>) {
    |pages'| == |pages| && forall p: nat :: p in managed && p !in free && p < |pages| ==> pages'[p].ref == pages[p].ref
  }

  /** Ordinary pages outside `but` keep their contents and stay ordinary. */
  ghost predicate SameData(s: Mem, s': Mem, but: set<nat>) {
    && |s.kind| == |s.frames| == |s'.frames| == |s'.kind|
    && forall f :: 0 <= f < |s.frames| && s.kind[f] == Data && f !in but ==>
       s'.kind[f] == Data && s'.frames[f] == s.frames[f]
  }

  lemma SameRefl(s: Mem, but: set<nat>)
    requires |s.kind| == |s.frames|
    ensures SameSpaces(s, s) && SameData(s, s, but)
  {
  }

  lemma SameMore(s: Mem, s': Mem, but: set<nat>, more: set<nat>)
    requires |s.kind| == |s.frames| && |s'.kind| == |s'.frames| && SameData(s, s', but) && but <= more
    ensures SameData(s, s', more)
  {
  }

  lemma SameToOther(s: Mem, s': Mem, d: nat)
    requires |s.kind| == |s.frames| && |s'.kind| == |s'.frames| && SameSpaces(s, s') && d < |s.frames| && s.kind[d].Dir?
    ensures OtherSpaces(s, s', d) && |s'.frames| == |s.frames| && Space(s'.frames, d) == Space(s.frames, d)
            && s'.kind[d] == s.kind[d]
  {
  }

  lemma NoKey(m: map<nat, Word>, v: nat)
    requires v !in m
    ensures m - {v} == m
  {
  }

  lemma StoreSpaces(s: Mem, d: nat, v: nat, w: Word)
    requires Typed(s) && d < |s.frames| && s.kind[d].Dir? && v < UTOP_VPN && Present(s.frames[d][Pdx(v)])
    ensures Pdx(v) < PDX_UTOP && s.frames[d][Pdx(v)].frame < |s.frames|
    ensures OtherSpaces(s, Store(s, s.frames[d][Pdx(v)].frame, Ptx(v), w), d)
    ensures SameData(s, Store(s, s.frames[d][Pdx(v)].frame, Ptx(v), w), {})
    ensures Space(Store(s, s.frames[d][Pdx(v)].frame, Ptx(v), w).frames, d) == Put(Space(s.frames, d), v, w)
  {
    forall x | 0 <= x < |s.frames| && s.kind[x].Dir? {
      TypedStore(s, d, v, w, x);
    }
  }

  lemma SameDataAt(s: Mem, s': Mem, but: set<nat>, f: nat)
    requires |s.kind| == |s.frames| && |s'.kind| == |s'.frames| && SameData(s, s', but)
    requires f < |s.frames| && s.kind[f] == Data && f !in but
    ensures |s'.frames| == |s.frames| && s'.kind[f] == Data && s'.frames[f] == s.frames[f]
  {
  }

  lemma OtherTrans(s: Mem, s1: Mem, s2: Mem, d: nat)
    requires |s.kind| == |s.frames| && |s1.kind| == |s1.frames| && |s2.kind| == |s2.frames|
    requires OtherSpaces(s, s1, d) && OtherSpaces(s1, s2, d)
    ensures OtherSpaces(s, s2, d)
  {
  }

  lemma OtherAfterSame(s: Mem, s1: Mem, s2: Mem, d: nat)
    requires |s.kind| == |s.frames| && |s1.kind| == |s1.frames| && |s2.kind| == |s2.frames|
    requires SameSpaces(s, s1) && OtherSpaces(s1, s2, d)
    ensures OtherSpaces(s, s2, d)
    ensures d < |s.frames| && s.kind[d].Dir? ==> Space(s1.frames, d) == Space(s.frames, d)
  {
  }

  lemma DataAfterData(s: Mem, s1: Mem, s2: Mem, but1: set<nat>, but2: set<nat>, but: set<nat>)
    requires |s.kind| == |s.frames| && |s1.kind| == |s1.frames| && |s2.kind| == |s2.frames|
    requires SameData(s, s1, but1) && SameData(s1, s2, but2) && but1 <= but && but2 <= but
    ensures SameData(s, s2, but)
  {
  }

  lemma DataTrans(s: Mem, s1: Mem, s2: Mem, but: set<nat>)
    requires |s.kind| == |s.frames| && |s1.kind| == |s1.frames| && |s2.kind| == |s2.frames|
    requires SameData(s, s1, but) && SameData(s1, s2, {})
    ensures SameData(s, s2, but)
  {
  }

  lemma PutPresent(m: map<nat, Word>, v: nat, w: Word)
    requires Present(w)
    ensures Put(m, v, w) == m[v := w]
  {
  }

  lemma StoreTwice(s: Mem, d: nat, t: nat, j: nat, w: Word, w': Word)
    requires t < |s.frames| && j < NENTRIES && d < |s.frames| && d != t
    ensures |Store(s, t, j, w).frames| == |s.frames|
    ensures Store(Store(s, t, j, w), t, j, w') == Store(s, t, j, w')
    ensures Store(s, t, j, w).kind == s.kind
    ensures Store(s, t, j, w).frames[d] == s.frames[d] && Store(s, t, j, w).frames[t][j] == w
  {
    assert s.frames[t][j := w][j := w'] == s.frames[t][j := w'];
    assert Store(Store(s, t, j, w), t, j, w').frames == Store(s, t, j, w').frames;
  }

  /** Translation by hand agrees with the map. */
  lemma Translate(s: Mem, d: nat, v: nat)
    requires Typed(s) && d < |s.frames| && s.kind[d].Dir? && v < UTOP_VPN
    ensures |s.kind| == |s.frames| && WalkSlot(s, d, Pdx(v))
    ensures Present(s.frames[d][Pdx(v)]) ==> s.frames[d][Pdx(v)].frame < |s.frames|
    ensures v in Space(s.frames, d) <==>
              Present(s.frames[d][Pdx(v)]) && Present(s.frames[s.frames[d][Pdx(v)].frame][Ptx(v)])
    ensures v in Space(s.frames, d) ==> Space(s.frames, d)[v] == s.frames[s.frames[d][Pdx(v)].frame][Ptx(v)]
    ensures Present(s.frames[d][Pdx(v)]) ==> s.kind[s.frames[d][Pdx(v)].frame] == Table(d, Pdx(v))
  {
    SplitVpn(v);
  }

  lemma WalkSpaces(s: Mem, d: nat, i: nat, t: nat, w: Word)
    requires Typed(s) && WalkSlot(s, d, i) && !Present(s.frames[d][i])
    requires t < |s.frames| && s.kind[t] == Data && w.frame == t
    ensures SameSpaces(s, Attach(s.(frames := s.frames[t := ZEROPAGE]), d, i, t, w))
    ensures SameData(s, Attach(s.(frames := s.frames[t := ZEROPAGE]), d, i, t, w), {t})
  {
    var s1 := s.(frames := s.frames[t := ZEROPAGE]);
    ZeroTables(s, t);
    forall x | 0 <= x < |s.frames| && s.kind[x].Dir?
      ensures Space(Attach(s1, d, i, t, w).frames, x) == Space(s.frames, x)
    {
      TypedScrub(s, t, ZEROPAGE, x);
      TypedAttach(s1, d, i, t, w, x);
    }
  }

  lemma ZeroTables(s: Mem, t: nat)
    requires Shape(s) && TablesOk(s) && t < |s.frames| && s.kind[t] == Data
    ensures Shape(s.(frames := s.frames[t := ZEROPAGE])) && TablesOk(s.(frames := s.frames[t := ZEROPAGE]))
  {
  }

  // ---------------------------------------------------------------- all address spaces at once

  function SetPage(space: map<nat, Word>, v: nat, w: Word): map<nat, Word> { space[v := w] }

  function SetIn(views: seq<map<nat, Word>>, e: nat, v: nat, w: Word): seq<map<nat, Word>>
    requires e < |views|
  {
    views[e := SetPage(views[e], v, w)]
  }

  ghost function EnvSpace(s: Mem, e: nat): map<nat, Word> {
    if e < |s.roots| && 0 != s.roots[e] < |s.frames| then Space(s.frames, s.roots[e]) else map[]
  }

  /** Is there a page table for page v in the address space of environment e? */
  predicate HasTable(s: Mem, e: nat, v: nat) {
    e < |s.roots| && s.roots[e] < |s.frames| && Present(s.frames[s.roots[e]][Pdx(v)])
  }

  lemma MappedHasTable(s: Mem, e: nat, v: nat)
    requires v in EnvSpace(s, e)
    ensures HasTable(s, e, v)
  {
  }

  /** The address space of every environment; a slot without a directory has the empty one. */
  ghost function Views(s: Mem): seq<map<nat, Word>> { seq(|s.roots|, e requires e >= 0 => EnvSpace(s, e)) }

  lemma SameViews(s: Mem, s': Mem)
    requires Typed(s) && SameSpaces(s, s') && s'.roots == s.roots
    ensures Views(s') == Views(s)
  {
    hide Space;
    forall e | 0 <= e < |s.roots|
      ensures Views(s')[e] == Views(s)[e]
    {
      assert s.roots[e] != 0 ==> s.kind[s.roots[e]].Dir?;
    }
  }

  lemma OtherViews(s: Mem, s': Mem, e: nat)
    requires Typed(s) && e < |s.roots| && s.roots[e] != 0 && OtherSpaces(s, s', s.roots[e]) && s'.roots == s.roots
    ensures s.roots[e] < |s.frames| == |s'.frames|
    ensures Views(s') == Views(s)[e := Space(s'.frames, s.roots[e])]
  {
    hide Space;
    forall x | 0 <= x < |s.roots| && x != e
      ensures Views(s')[x] == Views(s)[x]
    {
      assert s.roots[x] != 0 ==> s.kind[s.roots[x]] == Dir(x);
      assert s.kind[s.roots[e]] == Dir(e);
    }
  }
}

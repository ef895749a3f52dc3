/**
  Copy-on-write sharing against private copies.  The lazy machine is what the kernel and lib/fork.c
  do: environments map frames, and a frame may be shared.  The eager machine gives every place its own
  page.  No sequence of user actions can tell the two apart.
*/
module Cow {
  import opened Mmu
  import opened Spaces
  import opened Mappings

  datatype Vm = Vm(views: seq<map<nat, Word>>, data: seq<Page>)

  datatype Op =
    | Read(env: nat, vpn: nat, off: nat)
    | Write(env: nat, vpn: nat, off: nat, x: Word)
    | Copy(env: nat, vpn: nat)                  // pgfault: the page moves to a frame of its own
    | Fill(env: nat, n: nat, page: Page)        // a fault leaves these words on the exception stack, below word n
    | Alloc(env: nat, vpn: nat, perm: Flags)
    | Unmap(env: nat, vpn: nat)
    | Fork(env: nat, child: nat)
    | Exit(env: nat)
    | ForkShort(env: nat, child: nat, n: nat)   // a fork that gave up after the pages below n
    | Refused                                   // an action that failed without effect

  predicate At(vm: Vm, e: nat, v: nat) { e < |vm.views| && v in vm.views[e] }

  predicate IsEmpty(space: map<nat, Word>) { space == map[] }

  /** Which actions can be taken: reads of mapped pages, writes to writable ones; what a write to a
      copy-on-write page needs before is a Fill and a Copy. */
  predicate Enabled(vm: Vm, op: Op) {
    match op
    case Read(e, v, off) => At(vm, e, v) && off < NENTRIES
    case Write(e, v, off, _) => At(vm, e, v) && off < NENTRIES && vm.views[e][v].flags.w
    case Copy(e, v) => At(vm, e, v)
    case Fill(e, n, _) => At(vm, e, UXSTACK_VPN) && n <= NENTRIES && vm.views[e][UXSTACK_VPN].flags.w
    case Alloc(e, _, _) => e < |vm.views|
    case Unmap(e, _) => e < |vm.views|
    case Fork(e, c) => e < |vm.views| && c < |vm.views| && e != c && IsEmpty(vm.views[c])
    case Exit(e) => e < |vm.views|
    case ForkShort(e, c, _) => e < |vm.views| && c < |vm.views| && e != c && IsEmpty(vm.views[c])
    case Refused => true
  }

  ghost predicate InRange(vm: Vm) {
    forall c, g: nat :: MapsTo(vm.views, c, g) ==> g < |vm.data|
  }

  /** A frame with more than one mapping is writable at none of them. */
  ghost predicate Private(vm: Vm) {
    forall c, c', g: nat :: MapsTo(vm.views, c, g) && MapsTo(vm.views, c', g) && c != c' ==>
        !vm.views[c.env][c.vpn].flags.w
  }

  predicate Zeroed(p: Page) { forall i :: 0 <= i < NENTRIES ==> p[i] == NOTHING }

  lemma ZeroedIsBlank(p: Page)
    requires Zeroed(p)
    ensures p == Blank()
  {
  }

  ghost predicate Unused(vm: Vm, f: nat) { forall c :: !MapsTo(vm.views, c, f) }

  /** Frames mapped after the step, other than f, hold what they held before. */
  ghost predicate KeptBut(vm: Vm, vm': Vm, f: nat) {
    && |vm'.data| == |vm.data|
    && forall c, g: nat :: MapsTo(vm'.views, c, g) && g < |vm.data| && g != f ==> vm'.data[g] == vm.data[g]
  }

  ghost predicate Kept(vm: Vm, vm': Vm) {
    && |vm'.data| == |vm.data|
    && forall c, g: nat :: MapsTo(vm'.views, c, g) && g < |vm.data| ==> vm'.data[g] == vm.data[g]
  }

  const COW := PTE_U_P.(cow := true)

  /** duppage: what the child gets, and what the parent is left with. */
  function ChildWord(w: Word): Word { Word(w.frame, if w.flags.w || w.flags.cow then COW else PTE_U_P) }
  function ParentWord(w: Word): Word { if w.flags.w || w.flags.cow then Word(w.frame, COW) else w }

  function ParentSpace(space: map<nat, Word>, n: nat): map<nat, Word> {
    map v | v in space :: if v < n then ParentWord(space[v]) else space[v]
  }

  function ChildSpace(space: map<nat, Word>, n: nat): map<nat, Word> {
    map v | v in space && v < n :: ChildWord(space[v])
  }

  /** What one action does to shared memory.  Fresh frames are whatever the allocator returns. */
  ghost predicate Step(vm: Vm, op: Op, vm': Vm)
    requires Enabled(vm, op)
  {
    match op
    case Read(_, _, _) => vm' == vm
    case Write(e, v, off, x) => WroteTo(vm, e, v, off, x, vm')
    case Copy(e, v) => Copied(vm, e, v, vm')
    case Fill(e, n, page) => Filled(vm, e, n, page, vm')
    case Alloc(e, v, perm) => Allocated(vm, e, v, perm, vm')
    case Unmap(e, v) => Unmapped(vm, e, v, vm')
    case Fork(e, c) => Forked(vm, e, c, vm')
    case Exit(e) => Exited(vm, e, vm')
    case ForkShort(e, c, n) => Shared(vm, e, c, n, vm')
    case Refused => vm'.views == vm.views && Kept(vm, vm')
  }

  ghost predicate Takes(vm: Vm, op: Op, vm': Vm) { Enabled(vm, op) && Step(vm, op, vm') }

  /** The pages below n duplicated. */
  function HalfForked(views: seq<map<nat, Word>>, e: nat, child: nat, n: nat): (r: seq<map<nat, Word>>)
    requires e < |views| && child < |views|
    ensures |r| == |views|
  {
    views[child := ChildSpace(views[e], n)][e := ParentSpace(views[e], n)]
  }

  /** The page loop of fork, up to page n. */
  ghost predicate Shared(vm: Vm, e: nat, child: nat, n: nat, vm': Vm)
    requires e < |vm.views| && child < |vm.views|
  {
    vm'.views == HalfForked(vm.views, e, child, n) && Kept(vm, vm')
  }

  ghost predicate Unmapped(vm: Vm, e: nat, v: nat, vm': Vm)
    requires e < |vm.views|
  {
    vm'.views == vm.views[e := vm.views[e] - {v}] && Kept(vm, vm')
  }

  ghost predicate Exited(vm: Vm, e: nat, vm': Vm)
    requires e < |vm.views|
  {
    vm'.views == vm.views[e := map[]] && Kept(vm, vm')
  }

  ghost predicate WroteTo(vm: Vm, e: nat, v: nat, off: nat, x: Word, vm': Vm)
    requires At(vm, e, v) && off < NENTRIES
  {
    && vm.views[e][v].frame < |vm.data|
    && Stored(vm, e, v, vm.data[vm.views[e][v].frame][off := x], vm')
  }

  ghost predicate Filled(vm: Vm, e: nat, n: nat, page: Page, vm': Vm)
    requires At(vm, e, UXSTACK_VPN) && n <= NENTRIES
  {
    && vm.views[e][UXSTACK_VPN].frame < |vm.data|
    && Stored(vm, e, UXSTACK_VPN, Overlaid(vm.data[vm.views[e][UXSTACK_VPN].frame], n, page), vm')
  }

  /** The first n words of one page, the rest of the other. */
  function Overlaid(was: Page, n: nat, page: Page): Page
    requires n <= NENTRIES
  {
    page[..n] + was[n..]
  }

  /** The frame mapped at v now holds this page. */
  ghost predicate Stored(vm: Vm, e: nat, v: nat, page: Page, vm': Vm)
    requires At(vm, e, v) && vm.views[e][v].frame < |vm.data|
  {
    vm' == vm.(data := vm.data[vm.views[e][v].frame := page])
  }

  ghost predicate Copied(vm: Vm, e: nat, v: nat, vm': Vm)
    requires At(vm, e, v)
  {
    vm.views[e][v].frame < |vm.data| && exists f: nat :: CopyStep(vm, e, v, f, vm')
  }

  ghost predicate Allocated(vm: Vm, e: nat, v: nat, perm: Flags, vm': Vm)
    requires e < |vm.views|
  {
    exists f: nat :: AllocStep(vm, e, v, perm, f, vm')
  }

  ghost predicate Forked(vm: Vm, e: nat, c: nat, vm': Vm)
    requires e < |vm.views| && c < |vm.views| && e != c
  {
    exists f: nat :: ForkStep(vm, e, c, f, vm')
  }

  /** pgfault: the page moves to an unused frame f. */
  ghost predicate CopyStep(vm: Vm, e: nat, v: nat, f: nat, vm': Vm)
    requires At(vm, e, v) && vm.views[e][v].frame < |vm.data|
  {
    && f < |vm.data| && Unused(vm, f)
    && vm'.views == SetIn(vm.views, e, v, Word(f, PTE_U_W_P))
    && KeptBut(vm, vm', f) && vm'.data[f] == vm.data[vm.views[e][v].frame]
  }

  ghost predicate AllocStep(vm: Vm, e: nat, v: nat, perm: Flags, f: nat, vm': Vm)
    requires e < |vm.views|
  {
    && f < |vm.data| && Unused(vm, f)
    && vm'.views == SetIn(vm.views, e, v, Word(f, perm))
    && KeptBut(vm, vm', f) && Zeroed(vm'.data[f])
  }

  /** fork: everything below the exception stack is shared, the child's exception stack is new. */
  ghost predicate ForkStep(vm: Vm, e: nat, c: nat, f: nat, vm': Vm)
    requires e < |vm.views| && c < |vm.views| && e != c
  {
    && f < |vm.data| && Unused(vm, f)
    && vm'.views == SetIn(HalfForked(vm.views, e, c, UXSTACK_VPN), c, UXSTACK_VPN, Word(f, PTE_U_W_P))
    && KeptBut(vm, vm', f) && Zeroed(vm'.data[f])
  }

  // ---------------------------------------------------------------- the eager machine

  type Copies = map<Place, Page>

  /** One private page per place. */
  ghost function Contents(vm: Vm): Copies
    requires InRange(vm)
  {
    map c | c in AllPlaces(vm) :: PageAt(vm, c)
  }

  ghost function PageAt(vm: Vm, c: Place): Page
    requires InRange(vm) && At(vm, c.env, c.vpn)
  {
    assert MapsTo(vm.views, c, vm.views[c.env][c.vpn].frame);
    vm.data[vm.views[c.env][c.vpn].frame]
  }

  ghost function AllPlaces(vm: Vm): (r: set<Place>)
    ensures forall c :: c in r <==> At(vm, c.env, c.vpn)
  {
    set e, v | 0 <= e < |vm.views| && v in vm.views[e] :: Place(e, v)
  }

  /** Full copies, as dumbfork makes them. */
  ghost function EagerStep(m: Copies, op: Op): Copies {
    match op
    case Read(_, _, _) => m
    case Write(e, v, off, x) => EagerWrite(m, Place(e, v), off, x)
    case Copy(_, _) => m
    case Fill(e, n, page) => EagerFill(m, Place(e, UXSTACK_VPN), n, page)
    case Alloc(e, v, _) => EagerAlloc(m, Place(e, v))
    case Unmap(e, v) => EagerUnmap(m, Place(e, v))
    case Fork(e, c) => EagerFork(m, e, c)
    case Exit(e) => EagerExit(m, e)
    case ForkShort(e, c, n) => EagerCopy(m, e, c, n)
    case Refused => m
  }

  ghost function EagerWrite(m: Copies, c: Place, off: nat, x: Word): Copies {
    if c in m && off < NENTRIES then m[c := m[c][off := x]] else m
  }

  ghost function EagerFill(m: Copies, c: Place, n: nat, page: Page): Copies {
    if c in m && n <= NENTRIES then m[c := Overlaid(m[c], n, page)] else m
  }

  ghost function EagerAlloc(m: Copies, c: Place): Copies { m[c := Blank()] }

  ghost function EagerUnmap(m: Copies, c: Place): Copies { m - {c} }

  /** The child gets its own copy of every page below n. */
  ghost function EagerCopy(m: Copies, e: nat, c: nat, n: nat): Copies {
    m + map p | p in CopiedPlaces(m, e, c, n) :: m[Place(e, p.vpn)]
  }

  ghost function EagerFork(m: Copies, e: nat, c: nat): Copies {
    EagerCopy(m, e, c, UXSTACK_VPN)[Place(c, UXSTACK_VPN) := Blank()]
  }

  ghost function EagerExit(m: Copies, e: nat): Copies { m - set c | c in m && c.env == e }

  ghost function CopiedPlaces(m: Copies, e: nat, c: nat, n: nat): (r: set<Place>)
    ensures forall p :: p in r <==> p.env == c && p.vpn < n && Place(e, p.vpn) in m
  {
    set p | p in m && p.env == e && p.vpn < n :: Place(c, p.vpn)
  }

  // ---------------------------------------------------------------- one step

  lemma WriteStep(vm: Vm, e: nat, v: nat, off: nat, x: Word, vm': Vm)
    requires InRange(vm) && Private(vm) && At(vm, e, v) && off < NENTRIES && vm.views[e][v].flags.w
    requires WroteTo(vm, e, v, off, x, vm')
    ensures InRange(vm') && Private(vm') && Contents(vm') == EagerWrite(Contents(vm), Place(e, v), off, x)
  {
    InPlace(vm, e, v, vm.data[vm.views[e][v].frame][off := x]);
  }

  lemma FillStep(vm: Vm, e: nat, n: nat, page: Page, vm': Vm)
    requires InRange(vm) && Private(vm) && At(vm, e, UXSTACK_VPN) && n <= NENTRIES
    requires vm.views[e][UXSTACK_VPN].flags.w && Filled(vm, e, n, page, vm')
    ensures InRange(vm') && Private(vm') && Contents(vm') == EagerFill(Contents(vm), Place(e, UXSTACK_VPN), n, page)
  {
    InPlace(vm, e, UXSTACK_VPN, Overlaid(vm.data[vm.views[e][UXSTACK_VPN].frame], n, page));
  }

  /** A writable frame has no other mapping, so stores in place touch one copy. */
  lemma InPlace(vm: Vm, e: nat, v: nat, page: Page)
    requires InRange(vm) && Private(vm) && At(vm, e, v)
    requires vm.views[e][v].flags.w && vm.views[e][v].frame < |vm.data|
    ensures var vm' := vm.(data := vm.data[vm.views[e][v].frame := page]);
            InRange(vm') && Private(vm') && Contents(vm') == Contents(vm)[Place(e, v) := page]
    ensures Contents(vm)[Place(e, v)] == vm.data[vm.views[e][v].frame]
  {
    var g := vm.views[e][v].frame;
    var vm' := vm.(data := vm.data[g := page]);
    assert MapsTo(vm.views, Place(e, v), g);
    assert Contents(vm)[Place(e, v)] == PageAt(vm, Place(e, v));
    forall c: Place | At(vm, c.env, c.vpn)
      ensures PageAt(vm', c) == if c == Place(e, v) then page else PageAt(vm, c)
    {
      assert MapsTo(vm.views, c, vm.views[c.env][c.vpn].frame);
    }
  }

  lemma CopyRefines(vm: Vm, e: nat, v: nat, vm': Vm)
    requires InRange(vm) && Private(vm) && At(vm, e, v) && Copied(vm, e, v, vm')
    ensures InRange(vm') && Private(vm') && Contents(vm') == Contents(vm)
  {
    var f: nat :| CopyStep(vm, e, v, f, vm');
    Moved(vm, e, v, f, Word(f, PTE_U_W_P), vm');
    assert Contents(vm)[Place(e, v)] == PageAt(vm, Place(e, v));
  }

  /** Putting an unused frame at one place keeps sharing read-only and every other page what it was. */
  lemma Moved(vm: Vm, e: nat, v: nat, f: nat, w: Word, vm': Vm)
    requires InRange(vm) && Private(vm) && e < |vm.views| && f < |vm.data| && Unused(vm, f) && w.frame == f
    requires vm'.views == SetIn(vm.views, e, v, w) && KeptBut(vm, vm', f)
    ensures InRange(vm') && Private(vm')
    ensures Contents(vm') == Contents(vm)[Place(e, v) := vm'.data[f]]
  {
    MovedMaps(vm, e, v, f, w, vm');
    forall c: Place | At(vm', c.env, c.vpn)
      ensures PageAt(vm', c) == if c == Place(e, v) then vm'.data[f] else PageAt(vm, c)
    {
      assert MapsTo(vm'.views, c, vm'.views[c.env][c.vpn].frame);
    }
  }

  lemma MovedMaps(vm: Vm, e: nat, v: nat, f: nat, w: Word, vm': Vm)
    requires InRange(vm) && Private(vm) && e < |vm.views| && f < |vm.data| && Unused(vm, f) && w.frame == f
    requires vm'.views == SetIn(vm.views, e, v, w) && |vm'.data| == |vm.data|
    ensures forall c: Place :: At(vm', c.env, c.vpn) <==> c == Place(e, v) || At(vm, c.env, c.vpn)
    ensures forall c, g: nat :: MapsTo(vm'.views, c, g) ==>
              if c == Place(e, v) then g == f
              else MapsTo(vm.views, c, g) && g != f && vm'.views[c.env][c.vpn] == vm.views[c.env][c.vpn]
    ensures InRange(vm') && Private(vm')
  {
    forall c, g: nat | MapsTo(vm'.views, c, g)
      ensures if c == Place(e, v) then g == f
              else MapsTo(vm.views, c, g) && g != f && vm'.views[c.env][c.vpn] == vm.views[c.env][c.vpn]
    {
      assert c != Place(e, v) ==> MapsTo(vm.views, c, g);
      assert !MapsTo(vm.views, c, f);
    }
  }

  /** Taking mappings away. */
  lemma Shrunk(vm: Vm, vm': Vm)
    requires InRange(vm) && Private(vm) && Kept(vm, vm') && |vm'.views| == |vm.views|
    requires forall c: Place :: At(vm', c.env, c.vpn) ==>
               At(vm, c.env, c.vpn) && vm'.views[c.env][c.vpn] == vm.views[c.env][c.vpn]
    ensures InRange(vm') && Private(vm')
    ensures forall c: Place :: At(vm', c.env, c.vpn) ==> PageAt(vm', c) == PageAt(vm, c)
  {
    forall c, g: nat | MapsTo(vm'.views, c, g)
      ensures MapsTo(vm.views, c, g) && vm'.views[c.env][c.vpn] == vm.views[c.env][c.vpn]
    {
      assert At(vm', c.env, c.vpn);
    }
    forall c: Place | At(vm', c.env, c.vpn) ensures PageAt(vm', c) == PageAt(vm, c)
    {
      assert MapsTo(vm'.views, c, vm'.views[c.env][c.vpn].frame);
    }
  }

  lemma AllocStepRefines(vm: Vm, e: nat, v: nat, perm: Flags, vm': Vm)
    requires InRange(vm) && Private(vm) && e < |vm.views| && Allocated(vm, e, v, perm, vm')
    ensures InRange(vm') && Private(vm') && Contents(vm') == EagerAlloc(Contents(vm), Place(e, v))
  {
    var f: nat :| AllocStep(vm, e, v, perm, f, vm');
    Moved(vm, e, v, f, Word(f, perm), vm');
    ZeroedIsBlank(vm'.data[f]);
  }

  lemma ContentsAre(vm: Vm)
    requires InRange(vm)
    ensures forall c: Place :: c in Contents(vm) <==> At(vm, c.env, c.vpn)
    ensures forall c: Place :: At(vm, c.env, c.vpn) ==> Contents(vm)[c] == PageAt(vm, c)
  {
  }

  lemma UnmapStep(vm: Vm, e: nat, v: nat, vm': Vm)
    requires InRange(vm) && Private(vm) && e < |vm.views| && Unmapped(vm, e, v, vm')
    ensures InRange(vm') && Private(vm') && Contents(vm') == EagerUnmap(Contents(vm), Place(e, v))
  {
    hide InRange, Private, PageAt, Kept, Contents;
    assert forall c: Place :: At(vm', c.env, c.vpn) <==> At(vm, c.env, c.vpn) && c != Place(e, v);
    Shrunk(vm, vm');
    ContentsAre(vm);
    ContentsAre(vm');
  }

  lemma ExitStep(vm: Vm, e: nat, vm': Vm)
    requires InRange(vm) && Private(vm) && e < |vm.views| && Exited(vm, e, vm')
    ensures InRange(vm') && Private(vm') && Contents(vm') == EagerExit(Contents(vm), e)
  {
    hide InRange, Private, PageAt, Kept, Contents;
    assert forall c: Place :: At(vm', c.env, c.vpn) <==> At(vm, c.env, c.vpn) && c.env != e;
    Shrunk(vm, vm');
    ContentsAre(vm);
    ContentsAre(vm');
  }

  lemma RefusedStep(vm: Vm, vm': Vm)
    requires InRange(vm) && Private(vm) && vm'.views == vm.views && Kept(vm, vm')
    ensures InRange(vm') && Private(vm') && Contents(vm') == Contents(vm)
  {
    hide InRange, Private, PageAt, Kept, Contents;
    Shrunk(vm, vm');
    ContentsAre(vm);
    ContentsAre(vm');
  }

  /** Where a mapping after the page loop comes from. */
  function Origin(c: Place, e: nat, child: nat): Place { if c.env == child then Place(e, c.vpn) else c }

  lemma SharedOrigin(vm: Vm, e: nat, child: nat, n: nat, vm': Vm, c: Place)
    requires e < |vm.views| && child < |vm.views| && e != child && vm.views[child] == map[]
    requires vm'.views == HalfForked(vm.views, e, child, n) && At(vm', c.env, c.vpn)
    ensures var o := Origin(c, e, child);
            && At(vm, o.env, o.vpn) && vm'.views[c.env][c.vpn].frame == vm.views[o.env][o.vpn].frame
            && (vm'.views[c.env][c.vpn].flags.w ==> o == c && vm.views[c.env][c.vpn].flags.w)
            && (c.env == child ==> c.vpn < n)
            && (o.env == e && o.vpn < n ==> !vm'.views[c.env][c.vpn].flags.w)
  {
  }

  /** Sharing the pages below n leaves every shared frame writable nowhere. */
  lemma SharedKeepsPrivate(vm: Vm, e: nat, child: nat, n: nat, vm': Vm)
    requires InRange(vm) && Private(vm) && e < |vm.views| && child < |vm.views| && e != child
    requires vm.views[child] == map[] && Shared(vm, e, child, n, vm')
    ensures InRange(vm') && Private(vm')
  {
    hide HalfForked;
    forall c, c', g: nat | MapsTo(vm'.views, c, g) && MapsTo(vm'.views, c', g) && c != c'
      ensures !vm'.views[c.env][c.vpn].flags.w
    {
      SharedOrigin(vm, e, child, n, vm', c);
      SharedOrigin(vm, e, child, n, vm', c');
      assert MapsTo(vm.views, Origin(c, e, child), g) && MapsTo(vm.views, Origin(c', e, child), g);
    }
    forall c, g: nat | MapsTo(vm'.views, c, g) ensures g < |vm'.data| {
      SharedOrigin(vm, e, child, n, vm', c);
      assert MapsTo(vm.views, Origin(c, e, child), g);
    }
  }

  lemma SharedDomain(vm: Vm, e: nat, child: nat, n: nat, vm': Vm, c: Place)
    requires InRange(vm) && e < |vm.views| && child < |vm.views| && e != child && vm.views[child] == map[]
    requires vm'.views == HalfForked(vm.views, e, child, n)
    ensures At(vm', c.env, c.vpn) <==> c in EagerCopy(Contents(vm), e, child, n)
  {
    assert c in Contents(vm) <==> At(vm, c.env, c.vpn);
    assert Place(e, c.vpn) in Contents(vm) <==> At(vm, e, c.vpn);
  }

  lemma SharedPage(vm: Vm, e: nat, child: nat, n: nat, vm': Vm, c: Place)
    requires InRange(vm) && InRange(vm') && e < |vm.views| && child < |vm.views| && e != child
    requires vm.views[child] == map[] && Shared(vm, e, child, n, vm')
    requires At(vm', c.env, c.vpn) && c in EagerCopy(Contents(vm), e, child, n)
    ensures PageAt(vm', c) == EagerCopy(Contents(vm), e, child, n)[c]
  {
    SharedOrigin(vm, e, child, n, vm', c);
    assert MapsTo(vm'.views, c, vm'.views[c.env][c.vpn].frame);
    var o := Origin(c, e, child);
    assert MapsTo(vm.views, o, vm.views[o.env][o.vpn].frame);
    assert Contents(vm)[o] == PageAt(vm, o);
  }

  /** The page loop, however far it got, has given the child what full copies would have given it. */
  lemma SharedContents(vm: Vm, e: nat, child: nat, n: nat, vm': Vm)
    requires InRange(vm) && InRange(vm') && e < |vm.views| && child < |vm.views| && e != child
    requires vm.views[child] == map[] && Shared(vm, e, child, n, vm')
    ensures Contents(vm') == EagerCopy(Contents(vm), e, child, n)
  {
    hide Contents, EagerCopy, Shared, PageAt, InRange;
    var m' := EagerCopy(Contents(vm), e, child, n);
    ContentsAre(vm');
    assert vm'.views == HalfForked(vm.views, e, child, n) by { SharedViews(vm, e, child, n, vm'); }
    forall c: Place ensures At(vm', c.env, c.vpn) <==> c in m' { SharedDomain(vm, e, child, n, vm', c); }
    forall c | c in m' ensures PageAt(vm', c) == m'[c] { SharedPage(vm, e, child, n, vm', c); }
  }

  lemma SharedViews(vm: Vm, e: nat, child: nat, n: nat, vm': Vm)
    requires e < |vm.views| && child < |vm.views| && Shared(vm, e, child, n, vm')
    ensures vm'.views == HalfForked(vm.views, e, child, n)
  {
  }

  /** fork is its page loop and then a new page for the child's exception stack. */
  lemma ForkRefines(vm: Vm, e: nat, child: nat, f: nat, vm': Vm)
    requires InRange(vm) && Private(vm) && e < |vm.views| && child < |vm.views| && e != child
    requires vm.views[child] == map[] && ForkStep(vm, e, child, f, vm')
    ensures InRange(vm') && Private(vm') && Contents(vm') == EagerFork(Contents(vm), e, child)
  {
    hide Contents, EagerCopy, PageAt, InRange, Private, HalfForked;
    var vm1 := Vm(HalfForked(vm.views, e, child, UXSTACK_VPN), vm.data);
    SharedKeepsPrivate(vm, e, child, UXSTACK_VPN, vm1);
    SharedContents(vm, e, child, UXSTACK_VPN, vm1);
    forall c ensures !MapsTo(vm1.views, c, f) {
      if At(vm1, c.env, c.vpn) {
        SharedOrigin(vm, e, child, UXSTACK_VPN, vm1, c);
        assert !MapsTo(vm.views, Origin(c, e, child), f);
      }
    }
    Moved(vm1, child, UXSTACK_VPN, f, Word(f, PTE_U_W_P), vm');
    ZeroedIsBlank(vm'.data[f]);
  }

  /** Every action keeps sharing read-only and acts on the contents exactly as on private copies. */
  lemma StepRefines(vm: Vm, op: Op, vm': Vm)
    requires InRange(vm) && Private(vm) && Takes(vm, op, vm')
    ensures InRange(vm') && Private(vm') && Contents(vm') == EagerStep(Contents(vm), op)
  {
    match op
    case Read(_, _, _) =>
    case Write(e, v, off, x) => WriteStep(vm, e, v, off, x, vm');
    case Copy(e, v) => CopyRefines(vm, e, v, vm');
    case Fill(e, n, page) => FillStep(vm, e, n, page, vm');
    case Alloc(e, v, perm) => AllocStepRefines(vm, e, v, perm, vm');
    case Unmap(e, v) => UnmapStep(vm, e, v, vm');
    case Fork(e, c) =>
      var f: nat :| ForkStep(vm, e, c, f, vm');
      ForkRefines(vm, e, c, f, vm');
    case Exit(e) => ExitStep(vm, e, vm');
    case ForkShort(e, c, n) =>
      SharedKeepsPrivate(vm, e, c, n, vm');
      SharedContents(vm, e, c, n, vm');
    case Refused => RefusedStep(vm, vm');
  }

  // ---------------------------------------------------------------- whole runs

  /** A run of the lazy machine: states.0 -ops[0]-> states.1 ... */
  ghost predicate Run(states: seq<Vm>, ops: seq<Op>) {
    && |states| == |ops| + 1
    && forall i :: 0 <= i < |ops| ==> Takes(states[i], ops[i], states[i+1])
  }

  /** What the i-th action shows the program: the word read, if it is a read. */
  function Seen(vm: Vm, op: Op): Word
    requires Enabled(vm, op)
  {
    if op.Read? && vm.views[op.env][op.vpn].frame < |vm.data|
    then vm.data[vm.views[op.env][op.vpn].frame][op.off] else NOTHING
  }

  ghost function EagerRun(m: Copies, ops: seq<Op>): Copies {
    if ops == [] then m else EagerStep(EagerRun(m, ops[..|ops|-1]), ops[|ops|-1])
  }

  lemma {:induction false} RunOn(m: Copies, ops: seq<Op>, more: seq<Op>)
    ensures EagerRun(m, ops + more) == EagerRun(EagerRun(m, ops), more)
    decreases |more|
  {
    if more == [] {
      assert ops + more == ops;
    } else {
      var front := more[..|more|-1];
      RunOn(m, ops, front);
      assert (ops + more)[..|ops + more|-1] == ops + front;
    }
  }

  ghost function EagerSeen(m: Copies, op: Op): Word {
    if op.Read? && Place(op.env, op.vpn) in m && op.off < NENTRIES then m[Place(op.env, op.vpn)][op.off] else NOTHING
  }

  /** Several actions, one after the other. */
  ghost predicate Leads(vm: Vm, ops: seq<Op>, vm': Vm)
    decreases |ops|, 1
  {
    if ops == [] then vm' == vm else exists vm1 :: Via(vm, ops, vm1, vm')
  }

  /** The same, with the state before the last action. */
  ghost predicate Via(vm: Vm, ops: seq<Op>, vm1: Vm, vm': Vm)
    requires ops != []
    decreases |ops|, 0
  {
    Leads(vm, ops[..|ops|-1], vm1) && Takes(vm1, ops[|ops|-1], vm')
  }

  lemma LeadsNowhere(vm: Vm)
    ensures Leads(vm, [], vm)
  {
  }

  lemma LeadsOn(vm: Vm, ops: seq<Op>, vm1: Vm, op: Op, vm': Vm)
    requires Leads(vm, ops, vm1) && Takes(vm1, op, vm')
    ensures Leads(vm, ops + [op], vm')
  {
    assert (ops + [op])[..|ops + [op]|-1] == ops;
    assert Via(vm, ops + [op], vm1, vm');
  }

  lemma LeadsOne(vm: Vm, op: Op, vm': Vm)
    requires Takes(vm, op, vm')
    ensures Leads(vm, [op], vm')
  {
    LeadsOn(vm, [], vm, op, vm');
    assert [] + [op] == [op];
  }

  lemma {:induction false} LeadsMore(vm: Vm, ops: seq<Op>, vm1: Vm, more: seq<Op>, vm': Vm)
    requires Leads(vm, ops, vm1) && Leads(vm1, more, vm')
    ensures Leads(vm, ops + more, vm')
    decreases |more|
  {
    if more == [] {
      assert ops + more == ops;
    } else {
      var vm2 :| Via(vm1, more, vm2, vm');
      LeadsMore(vm, ops, vm1, more[..|more|-1], vm2);
      LeadsOn(vm, ops + more[..|more|-1], vm2, more[|more|-1], vm');
      assert ops + more[..|more|-1] + [more[|more|-1]] == ops + more;
    }
  }

  lemma {:induction false} LeadsRefines(vm: Vm, ops: seq<Op>, vm': Vm)
    requires InRange(vm) && Private(vm) && Leads(vm, ops, vm')
    ensures InRange(vm') && Private(vm') && Contents(vm') == EagerRun(Contents(vm), ops)
    decreases |ops|
  {
    if ops != [] {
      var vm1 :| Via(vm, ops, vm1, vm');
      hide InRange, Private, Contents, Takes;
      LeadsRefines(vm, ops[..|ops|-1], vm1);
      StepRefines(vm1, ops[|ops|-1], vm');
    }
  }

  /** A read of the shared memory shows the word of the private copy. */
  lemma SeenIsEager(vm: Vm, op: Op)
    requires InRange(vm) && Enabled(vm, op)
    ensures Seen(vm, op) == EagerSeen(Contents(vm), op)
  {
    if op.Read? {
      var Read(e, v, _) := op;
      assert MapsTo(vm.views, Place(e, v), vm.views[e][v].frame);
      assert Contents(vm)[Place(e, v)] == PageAt(vm, Place(e, v));
    }
  }

  /** Copy-on-write is invisible: in every interleaving of forks, reads, writes, allocations, unmappings
      and exits of any number of environments, each read returns what it returns with private full copies. */
  lemma {:induction false} CowIsInvisible(states: seq<Vm>, ops: seq<Op>, n: nat)
    requires Run(states, ops) && n <= |ops| && InRange(states[0]) && Private(states[0])
    ensures InRange(states[n]) && Private(states[n])
    ensures Contents(states[n]) == EagerRun(Contents(states[0]), ops[..n])
    ensures n < |ops| ==>
              && Enabled(states[n], ops[n])
              && Seen(states[n], ops[n]) == EagerSeen(EagerRun(Contents(states[0]), ops[..n]), ops[n])
  {
    if n > 0 {
      CowIsInvisible(states, ops, n - 1);
      assert ops[..n][..n-1] == ops[..n-1];
      StepRefines(states[n-1], ops[n-1], states[n]);
    }
    if n < |ops| {
      assert Takes(states[n], ops[n], states[n+1]);
      SeenIsEager(states[n], ops[n]);
    }
  }
}
